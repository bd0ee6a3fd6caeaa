/** String operations of the JavaScript runtime that the bot relies on, stated over
    `string` (= `seq<char>`): digit runs and decimal rendering, `padStart`, `parseInt`
    without a radix, `startsWith`/`includes`/`replace`/`split`/`join`, and the
    lexicographic order that both JavaScript `<` on strings and SQLite's BINARY
    collation use for the ASCII texts stored by the bot. */
module Text {
  import opened Wrappers

  /** A string value that JavaScript treats as true: present (not null/undefined) and non-empty. */
  predicate Given(o: Option<string>) { o.Some? && o.value != "" }

  /** `text || null`: the empty text becomes null. */
  function OrNull(text: string): (r: Option<string>)
    ensures Given(r) <==> text != ""
    ensures r.GetOr("") == text
  {
    if text == "" then None else Some(text)
  }

  // ---------------------------------------------------------------------------
  // Characters and digit runs
  // ---------------------------------------------------------------------------

  predicate IsDigit(c: char) { '0' <= c <= '9' }

  /** Value of `c` as a digit in radix up to 36 ('a'/'A' = 10 ... 'z'/'Z' = 35), or -1. */
  function CharDigit(c: char): int {
    if '0' <= c <= '9' then c as int - '0' as int
    else if 'a' <= c <= 'z' then c as int - 'a' as int + 10
    else if 'A' <= c <= 'Z' then c as int - 'A' as int + 10
    else -1
  }

  predicate IsRadixDigit(c: char, radix: nat) { 0 <= CharDigit(c) < radix }

  predicate AllRadixDigits(s: string, radix: nat) {
    forall i :: 0 <= i < |s| ==> IsRadixDigit(s[i], radix)
  }

  predicate AllDigits(s: string) { forall i :: 0 <= i < |s| ==> IsDigit(s[i]) }

  lemma DecimalDigits(s: string)
    ensures AllDigits(s) <==> AllRadixDigits(s, 10)
  {
    forall i | 0 <= i < |s| ensures IsDigit(s[i]) <==> IsRadixDigit(s[i], 10) { }
  }

  /** Value of a digit run, most significant digit first (Horner's rule, as parseInt reads it). */
  function RadixValue(s: string, radix: nat): nat
    requires AllRadixDigits(s, radix)
    decreases |s|
  {
    if s == [] then 0
    else RadixValue(s[..|s| - 1], radix) * radix + CharDigit(s[|s| - 1])
  }

  /** Length of the longest prefix of `s` made of radix digits. */
  function DigitRun(s: string, radix: nat): (n: nat)
    ensures n <= |s|
    ensures AllRadixDigits(s[..n], radix)
    ensures n < |s| ==> !IsRadixDigit(s[n], radix)
    decreases |s|
  {
    if s == [] || !IsRadixDigit(s[0], radix) then 0
    else
      var k := DigitRun(s[1..], radix);
      assert s[..k + 1] == [s[0]] + s[1..][..k];
      k + 1
  }

  function DigitChar(d: nat): (c: char)
    requires d < 10
    ensures IsDigit(c) && CharDigit(c) == d
  {
    ('0' as int + d) as char
  }

  // ---------------------------------------------------------------------------
  // Number to string (`String(n)` / template literals for integers)
  // ---------------------------------------------------------------------------

  /** Canonical decimal rendering of a natural number. */
  function NatToString(n: nat): (s: string)
    ensures |s| >= 1 && AllDigits(s)
    ensures |s| > 1 ==> s[0] != '0'
    decreases n
  {
    if n < 10 then [DigitChar(n)] else NatToString(n / 10) + [DigitChar(n % 10)]
  }

  /** Decimal rendering of an integer, with a leading '-' for negatives. */
  function IntToString(i: int): string {
    if i < 0 then "-" + NatToString(-i) else NatToString(i)
  }

  /** Reading the rendering back gives the number: the partner of NatToString. */
  lemma {:induction false} NatToStringValue(n: nat)
    ensures AllRadixDigits(NatToString(n), 10)
    ensures RadixValue(NatToString(n), 10) == n
    decreases n
  {
    var s := NatToString(n);
    DecimalDigits(s);
    if n >= 10 {
      NatToStringValue(n / 10);
      assert s[..|s| - 1] == NatToString(n / 10);
    }
  }

  lemma NatToStringInjective(a: nat, b: nat)
    requires NatToString(a) == NatToString(b)
    ensures a == b
  {
    NatToStringValue(a);
    NatToStringValue(b);
  }

  /** Distinct integers render differently (String() on integers is injective). */
  lemma IntToStringInjective(a: int, b: int)
    requires IntToString(a) == IntToString(b)
    ensures a == b
  {
    ParseIntOfIntToString(a);
    ParseIntOfIntToString(b);
  }

  /** `s.padStart(width, fill)`: prefix fill characters until the length reaches `width`. */
  function PadStart(s: string, width: nat, fill: char): (r: string)
    ensures |r| == if |s| >= width then |s| else width
    ensures r[|r| - |s|..] == s
    ensures forall i :: 0 <= i < |r| - |s| ==> r[i] == fill
  {
    if |s| >= width then s else seq(width - |s|, _ => fill) + s
  }

  // ---------------------------------------------------------------------------
  // parseInt(string) with no radix argument
  // ---------------------------------------------------------------------------

  /** WhiteSpace and LineTerminator code points of ECMAScript (StrWhiteSpaceChar). */
  predicate IsJsSpace(c: char) {
    var k := c as int;
    (0x09 <= k <= 0x0D) || k == 0x20 || k == 0xA0 || k == 0x1680 || (0x2000 <= k <= 0x200A)
    || k == 0x2028 || k == 0x2029 || k == 0x202F || k == 0x205F || k == 0x3000 || k == 0xFEFF
  }

  function TrimStart(s: string): (r: string)
    ensures |r| <= |s| && r == s[|s| - |r|..]
    ensures r == [] || !IsJsSpace(r[0])
    decreases |s|
  {
    if s != [] && IsJsSpace(s[0]) then TrimStart(s[1..]) else s
  }

  function TrimEnd(s: string): (r: string)
    ensures |r| <= |s| && r == s[..|r|]
    ensures r == [] || !IsJsSpace(r[|r| - 1])
    decreases |s|
  {
    if s != [] && IsJsSpace(s[|s| - 1]) then TrimEnd(s[..|s| - 1]) else s
  }

  /** `parseInt(s)`: skip leading white space, an optional sign, a "0x"/"0X" prefix selecting
      radix 16, then the longest run of digits; no digits gives NaN (None). */
  function ParseInt(s: string): Option<int> {
    SignedPrefix(TrimStart(s))
  }

  /** An optional sign, then the unsigned prefix. */
  function SignedPrefix(t: string): Option<int> {
    var negative := t != [] && t[0] == '-';
    var u := if t != [] && (t[0] == '-' || t[0] == '+') then t[1..] else t;
    var magnitude := UnsignedPrefix(u);
    if magnitude.None? then None
    else Some(if negative then -(magnitude.value as int) else magnitude.value)
  }

  /** The value of the leading digits after the sign: "0x"/"0X" selects radix 16. */
  function UnsignedPrefix(u: string): Option<nat> {
    var hex := |u| >= 2 && u[0] == '0' && (u[1] == 'x' || u[1] == 'X');
    var radix := if hex then 16 else 10;
    var body := if hex then u[2..] else u;
    var n := DigitRun(body, radix);
    if n == 0 then None else Some(RadixValue(body[..n], radix))
  }

  /** parseInt reads back what String() wrote: the partner of IntToString. */
  lemma ParseIntOfIntToString(i: int)
    ensures ParseInt(IntToString(i)) == Some(i)
  {
    if i < 0 {
      NatToStringPrefix(-i);
      MinusSign(NatToString(-i), -i);
    } else {
      NatToStringPrefix(i);
      PlainDigits(NatToString(i), i);
    }
  }

  /** The digits of a rendered natural number are read back as that number. */
  lemma NatToStringPrefix(m: nat)
    ensures UnsignedPrefix(NatToString(m)) == Some(m)
  {
    var digits := NatToString(m);
    NatToStringValue(m);
    DecimalDigits(digits);
    DigitRunAll(digits, 10);
    UnsignedDigits(digits);
  }

  /** A leading '-' negates what the unsigned prefix after it reads. */
  lemma MinusSign(u: string, v: nat)
    requires UnsignedPrefix(u) == Some(v)
    ensures ParseInt("-" + u) == Some(-(v as int))
  {
    assert ("-" + u)[0] == '-' && !IsJsSpace('-');
    NoLeadingSpace("-" + u);
    assert ("-" + u)[1..] == u;
  }

  /** Text starting with a digit is read as its unsigned prefix. */
  lemma PlainDigits(u: string, v: nat)
    requires u != [] && IsDigit(u[0]) && UnsignedPrefix(u) == Some(v)
    ensures ParseInt(u) == Some(v)
  {
    DigitIsNotSpace(u[0]);
    NoLeadingSpace(u);
  }

  lemma UnsignedDigits(digits: string)
    requires digits != [] && !(|digits| >= 2 && digits[0] == '0')
    requires AllRadixDigits(digits, 10) && DigitRun(digits, 10) == |digits|
    ensures UnsignedPrefix(digits) == Some(RadixValue(digits, 10))
  {
    assert digits[..|digits|] == digits;
  }

  lemma NoLeadingSpace(s: string)
    requires s != [] && !IsJsSpace(s[0])
    ensures TrimStart(s) == s
  {
  }

  lemma DigitIsNotSpace(c: char)
    requires IsDigit(c)
    ensures !IsJsSpace(c)
  {
  }


  /** A run of '0' characters is worth nothing ... */
  lemma {:induction false} ZerosValue(z: string)
    requires forall i :: 0 <= i < |z| ==> z[i] == '0'
    ensures AllRadixDigits(z, 10) && RadixValue(z, 10) == 0
    decreases |z|
  {
    if z != [] {
      ZerosValue(z[..|z| - 1]);
    }
  }

  /** ... so leading zeros do not change the value of a digit run (as after padStart). */
  lemma {:induction false} LeadingZeros(z: string, s: string)
    requires forall i :: 0 <= i < |z| ==> z[i] == '0'
    requires AllRadixDigits(s, 10)
    ensures AllRadixDigits(z + s, 10)
    ensures RadixValue(z + s, 10) == RadixValue(s, 10)
    decreases |s|
  {
    ZerosValue(z);
    if s == [] {
      assert z + s == z;
    } else {
      var n := |s| - 1;
      assert (z + s)[..|z + s| - 1] == z + s[..n];
      LeadingZeros(z, s[..n]);
    }
  }

  lemma DigitRunAll(s: string, radix: nat)
    requires AllRadixDigits(s, radix)
    ensures DigitRun(s, radix) == |s|
    decreases |s|
  {
    if s != [] {
      DigitRunAll(s[1..], radix);
    }
  }

  // ---------------------------------------------------------------------------
  // Substrings: startsWith, includes, replace, split, join
  // ---------------------------------------------------------------------------

  predicate StartsWith(s: string, prefix: string) {
    |prefix| <= |s| && s[..|prefix|] == prefix
  }

  /** `s.includes(p)`. */
  predicate Contains(s: string, p: string)
    decreases |s|
  {
    StartsWith(s, p) || (s != [] && Contains(s[1..], p))
  }

  lemma ContainsAt(s: string, p: string, i: nat)
    requires i + |p| <= |s| && s[i..i + |p|] == p
    ensures Contains(s, p)
    decreases i
  {
    if i > 0 {
      assert s[1..][i - 1..i - 1 + |p|] == s[i..i + |p|];
      ContainsAt(s[1..], p, i - 1);
    }
  }

  /** A text contains whatever sits between two of its parts. */
  lemma ContainsMiddle(a: string, p: string, b: string)
    ensures Contains(a + p + b, p)
  {
    var s := a + p + b;
    assert s[|a|..|a| + |p|] == p;
    ContainsAt(s, p, |a|);
  }

  /** `s.replace(p, r)` with a string pattern: the first occurrence only. */
  function ReplaceFirst(s: string, p: string, r: string): string
    decreases |s|
  {
    if StartsWith(s, p) then r + s[|p|..]
    else if s == [] then s
    else [s[0]] + ReplaceFirst(s[1..], p, r)
  }

  /** Removing a prefix with `replace` gives back the rest. */
  lemma ReplaceFirstPrefix(p: string, rest: string)
    ensures ReplaceFirst(p + rest, p, "") == rest
  {
    assert (p + rest)[..|p|] == p;
    assert (p + rest)[|p|..] == rest;
  }

  /** `s.replace(/p/g, r)` for a literal, non-empty pattern: every non-overlapping
      occurrence, scanned from the left. */
  function ReplaceAll(s: string, p: string, r: string): string
    requires |p| > 0
    decreases |s|
  {
    if |s| < |p| then s
    else if s[..|p|] == p then r + ReplaceAll(s[|p|..], p, r)
    else [s[0]] + ReplaceAll(s[1..], p, r)
  }

  /** With no occurrence, replacing every occurrence changes nothing. */
  lemma {:induction false} ReplaceAllAbsent(s: string, p: string, r: string)
    requires |p| > 0 && !Contains(s, p)
    ensures ReplaceAll(s, p, r) == s
    decreases |s|
  {
    if |s| >= |p| {
      assert s[..|p|] != p;
      assert !Contains(s[1..], p);
      ReplaceAllAbsent(s[1..], p, r);
    }
  }

  function IndexOf(s: string, c: char): (i: nat)
    requires c in s
    ensures i < |s| && s[i] == c && c !in s[..i]
    decreases |s|
  {
    if s[0] == c then 0
    else
      assert c in s[1..];
      var k := IndexOf(s[1..], c);
      assert s[..k + 1] == [s[0]] + s[1..][..k];
      k + 1
  }

  /** `s.split(c)` for a one-character separator. */
  function Split(s: string, sep: char): (parts: seq<string>)
    ensures |parts| >= 1
    ensures forall i :: 0 <= i < |parts| ==> sep !in parts[i]
    decreases |s|
  {
    if sep !in s then [s]
    else
      var i := IndexOf(s, sep);
      [s[..i]] + Split(s[i + 1..], sep)
  }

  /** `parts.join(sep)`. */
  function Join(parts: seq<string>, sep: string): string
    decreases |parts|
  {
    if |parts| == 0 then ""
    else if |parts| == 1 then parts[0]
    else parts[0] + sep + Join(parts[1..], sep)
  }

  /** A character found in no piece and not in the separator is not in the join. */
  lemma {:induction false} JoinAvoids(parts: seq<string>, sep: string, c: char)
    requires c !in sep && forall i :: 0 <= i < |parts| ==> c !in parts[i]
    ensures c !in Join(parts, sep)
    decreases |parts|
  {
    if |parts| > 1 {
      JoinAvoids(parts[1..], sep, c);
    }
  }

  /** Joining the pieces of a split gives back the original string. */
  lemma {:induction false} JoinSplit(s: string, sep: char)
    ensures Join(Split(s, sep), [sep]) == s
    decreases |s|
  {
    if sep in s {
      var i := IndexOf(s, sep);
      var rest := s[i + 1..];
      var parts := Split(s, sep);
      assert parts == [s[..i]] + Split(rest, sep);
      assert |parts| > 1 && parts[0] == s[..i] && parts[1..] == Split(rest, sep);
      JoinSplit(rest, sep);
      assert Join(parts, [sep]) == s[..i] + [sep] + rest;
      assert s == s[..i] + [sep] + rest;
    }
  }

  /** Splitting a join of separator-free pieces gives back the pieces. */
  lemma {:induction false} SplitJoin(parts: seq<string>, sep: char)
    requires |parts| >= 1
    requires forall i :: 0 <= i < |parts| ==> sep !in parts[i]
    ensures Split(Join(parts, [sep]), sep) == parts
    decreases |parts|
  {
    if |parts| > 1 {
      var s := Join(parts, [sep]);
      var rest := Join(parts[1..], [sep]);
      assert s == parts[0] + [sep] + rest;
      assert s[|parts[0]|] == sep;
      assert s[..|parts[0]|] == parts[0];
      assert IndexOf(s, sep) == |parts[0]|;
      assert s[|parts[0]| + 1..] == rest;
      SplitJoin(parts[1..], sep);
    }
  }

  // ---------------------------------------------------------------------------
  // Lexicographic order of strings
  // ---------------------------------------------------------------------------

  /** Code-point lexicographic order (`a < b` on the ASCII strings the bot compares, and
      SQLite's BINARY collation, which compares UTF-8 bytes in the same order). */
  predicate LexLess(a: string, b: string)
    decreases |a|
  {
    if a == [] then b != []
    else b != [] && (a[0] < b[0] || (a[0] == b[0] && LexLess(a[1..], b[1..])))
  }

  predicate LexLe(a: string, b: string) { a == b || LexLess(a, b) }

  lemma {:induction false} LexLessIrreflexive(a: string)
    ensures !LexLess(a, a)
    decreases |a|
  {
    if a != [] { LexLessIrreflexive(a[1..]); }
  }

  lemma {:induction false} LexLessTransitive(a: string, b: string, c: string)
    requires LexLess(a, b) && LexLess(b, c)
    ensures LexLess(a, c)
    decreases |a|
  {
    if a != [] && a[0] == b[0] && b[0] == c[0] {
      LexLessTransitive(a[1..], b[1..], c[1..]);
    }
  }

  lemma {:induction false} LexLessTotal(a: string, b: string)
    ensures a == b || LexLess(a, b) || LexLess(b, a)
    decreases |a|
  {
    if a != [] && b != [] && a[0] == b[0] {
      LexLessTotal(a[1..], b[1..]);
      if a[1..] == b[1..] {
        assert a == [a[0]] + a[1..] && b == [b[0]] + b[1..];
      }
    }
  }

  lemma LexLessAsymmetric(a: string, b: string)
    requires LexLess(a, b)
    ensures !LexLess(b, a) && a != b
  {
    LexLessIrreflexive(a);
    if LexLess(b, a) { LexLessTransitive(a, b, a); }
  }

  /** LexLe is a total order: reflexive, antisymmetric, transitive and total. */
  lemma LexLeTotalOrder(a: string, b: string, c: string)
    ensures LexLe(a, a)
    ensures LexLe(a, b) && LexLe(b, a) ==> a == b
    ensures LexLe(a, b) && LexLe(b, c) ==> LexLe(a, c)
    ensures LexLe(a, b) || LexLe(b, a)
  {
    LexLessTotal(a, b);
    if LexLess(a, b) { LexLessAsymmetric(a, b); }
    if LexLess(a, b) && LexLess(b, c) { LexLessTransitive(a, b, c); }
  }

  /** Comparing two concatenations whose first parts have equal length: the first parts
      decide unless they are equal. */
  lemma {:induction false} LexLessConcat(a1: string, a2: string, b1: string, b2: string)
    requires |a1| == |b1|
    ensures LexLess(a1 + a2, b1 + b2) <==> LexLess(a1, b1) || (a1 == b1 && LexLess(a2, b2))
    decreases |a1|
  {
    if a1 != [] {
      assert (a1 + a2)[0] == a1[0] && (b1 + b2)[0] == b1[0];
      assert (a1 + a2)[1..] == a1[1..] + a2 && (b1 + b2)[1..] == b1[1..] + b2;
      LexLessConcat(a1[1..], a2, b1[1..], b2);
      if a1[0] == b1[0] && a1[1..] == b1[1..] {
        assert a1 == [a1[0]] + a1[1..] && b1 == [b1[0]] + b1[1..];
      }
    } else {
      assert a1 + a2 == a2 && b1 + b2 == b2;
    }
  }

  /** For equal-length decimal digit runs, string order is numeric order. */
  lemma {:induction false} DigitsLexOrder(a: string, b: string)
    requires |a| == |b| && AllDigits(a) && AllDigits(b)
    ensures AllRadixDigits(a, 10) && AllRadixDigits(b, 10)
    ensures LexLess(a, b) <==> RadixValue(a, 10) < RadixValue(b, 10)
    ensures a == b <==> RadixValue(a, 10) == RadixValue(b, 10)
    decreases |a|
  {
    DecimalDigits(a);
    DecimalDigits(b);
    if a != [] {
      var n := |a| - 1;
      var a1, b1 := a[..n], b[..n];
      DigitsLexOrder(a1, b1);
      assert a == a1 + [a[n]] && b == b1 + [b[n]];
      LexLessConcat(a1, [a[n]], b1, [b[n]]);
      var da, db := CharDigit(a[n]), CharDigit(b[n]);
      assert RadixValue(a, 10) == RadixValue(a1, 10) * 10 + da;
      assert RadixValue(b, 10) == RadixValue(b1, 10) * 10 + db;
      assert 0 <= da < 10 && 0 <= db < 10;
      assert LexLess([a[n]], [b[n]]) <==> a[n] < b[n];
      assert a[n] < b[n] <==> da < db;
      assert a[n] == b[n] <==> da == db;
    }
  }
}
