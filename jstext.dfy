/**
 * The pieces of the JavaScript runtime that the calculators rely on for text:
 * the white space that `trim` and `parseInt` skip, `String.prototype.trim`,
 * `String.prototype.split` on a one-character separator, `parseInt` with no
 * radix argument, and the decimal rendering of a non-negative integer.
 * These follow the ECMAScript definitions (StrWhiteSpaceChar, TrimString,
 * the parseInt algorithm of section 19.2.5 of ECMA-262), on exact integers.
 */
module JsText {
  import opened Wrappers

  /** StrWhiteSpaceChar: the WhiteSpace and LineTerminator code points. */
  predicate IsWhiteSpace(c: char) {
    c == '\U{9}' || c == '\U{A}' || c == '\U{B}' || c == '\U{C}' || c == '\U{D}'
    || c == ' ' || c == '\U{A0}' || c == '\U{1680}'
    || ('\U{2000}' <= c <= '\U{200A}')
    || c == '\U{2028}' || c == '\U{2029}' || c == '\U{202F}' || c == '\U{205F}'
    || c == '\U{3000}' || c == '\U{FEFF}'
  }

  /** The string without its leading white space. */
  function TrimStart(s: string): (r: string)
    ensures |r| <= |s|
    ensures forall i :: 0 <= i < |s| - |r| ==> IsWhiteSpace(s[i])
    ensures r == [] || !IsWhiteSpace(r[0])
  {
    if s != [] && IsWhiteSpace(s[0]) then TrimStart(s[1..]) else s
  }

  /** The string without its trailing white space. */
  function TrimEnd(s: string): (r: string)
    ensures |r| <= |s|
    ensures forall i :: |r| <= i < |s| ==> IsWhiteSpace(s[i])
    ensures r == [] || !IsWhiteSpace(r[|r| - 1])
  {
    if s != [] && IsWhiteSpace(s[|s| - 1]) then TrimEnd(s[..|s| - 1]) else s
  }

  /** TrimStart drops a prefix: what remains is a suffix of the string. */
  lemma {:induction false} TrimStartIsSuffix(s: string)
    ensures TrimStart(s) == s[|s| - |TrimStart(s)|..]
  {
    if s != [] && IsWhiteSpace(s[0]) {
      TrimStartIsSuffix(s[1..]);
    }
  }

  /** TrimEnd drops a suffix: what remains is a prefix of the string. */
  lemma {:induction false} TrimEndIsPrefix(s: string)
    ensures TrimEnd(s) == s[..|TrimEnd(s)|]
  {
    if s != [] && IsWhiteSpace(s[|s| - 1]) {
      TrimEndIsPrefix(s[..|s| - 1]);
    }
  }

  /** `String.prototype.trim`: white space removed from both ends. */
  function Trim(s: string): (r: string)
    ensures r == [] || (!IsWhiteSpace(r[0]) && !IsWhiteSpace(r[|r| - 1]))
    ensures |r| <= |s|
  {
    var t := TrimStart(s);
    var r := TrimEnd(t);
    TrimEndIsPrefix(t);
    assert r != [] ==> r[0] == t[0];
    r
  }

  /** Trim cuts only white space: what it leaves is a slice of the string with nothing but white space on either side. */
  lemma TrimCutsWhiteSpace(s: string)
    ensures exists i, j :: 0 <= i <= j <= |s| && Trim(s) == s[i..j]
              && (forall k :: 0 <= k < i ==> IsWhiteSpace(s[k]))
              && (forall k :: j <= k < |s| ==> IsWhiteSpace(s[k]))
  {
    var t := TrimStart(s);
    var i := |s| - |t|;
    TrimStartIsSuffix(s);
    TrimEndIsPrefix(t);
    var j := i + |TrimEnd(t)|;
    assert Trim(s) == s[i..j];
    assert forall k :: j <= k < |s| ==> s[k] == t[k - i];
  }

  /** A string that starts with a non-white character is left alone by TrimStart. */
  lemma {:induction false} TrimStartAfterWhiteSpace(w: string, s: string)
    requires forall i :: 0 <= i < |w| ==> IsWhiteSpace(w[i])
    requires s == [] || !IsWhiteSpace(s[0])
    ensures TrimStart(w + s) == s
  {
    if w != [] {
      assert (w + s)[1..] == w[1..] + s;
      TrimStartAfterWhiteSpace(w[1..], s);
    }
  }

  /** Trimming twice is trimming once. */
  lemma TrimIdempotent(s: string)
    ensures Trim(Trim(s)) == Trim(s)
  {
  }

  /** The index of the first occurrence of `c` in `s`. */
  function IndexOf(s: string, c: char): (k: nat)
    requires c in s
    ensures k < |s| && s[k] == c && c !in s[..k]
  {
    if s[0] == c then 0 else 1 + IndexOf(s[1..], c)
  }

  /** An occurrence with no earlier occurrence is the one IndexOf finds. */
  lemma {:induction false} IndexOfFirst(s: string, c: char, j: nat)
    requires j < |s| && s[j] == c && c !in s[..j]
    ensures c in s && IndexOf(s, c) == j
  {
    if j > 0 {
      assert s[0] in s[..j];
      assert s[1..][..j - 1] == s[..j][1..];
      IndexOfFirst(s[1..], c, j - 1);
    }
  }

  /** `s.split(sep)` for a one-character separator: always at least one part. */
  function Split(s: string, sep: char): (parts: seq<string>)
    ensures |parts| >= 1
    ensures forall i :: 0 <= i < |parts| ==> sep !in parts[i]
    decreases |s|
  {
    if sep !in s then [s]
    else
      var k := IndexOf(s, sep);
      [s[..k]] + Split(s[k + 1..], sep)
  }

  /** `parts.join(sep)`: the inverse of Split. */
  function Join(parts: seq<string>, sep: char): string
    requires |parts| >= 1
  {
    if |parts| == 1 then parts[0] else parts[0] + ([sep] + Join(parts[1..], sep))
  }

  /** Joining the parts of a split gives back the original string. */
  lemma {:induction false} JoinSplit(s: string, sep: char)
    ensures Join(Split(s, sep), sep) == s
    decreases |s|
  {
    if sep in s {
      var k := IndexOf(s, sep);
      JoinSplit(s[k + 1..], sep);
      assert Split(s, sep)[1..] == Split(s[k + 1..], sep);
      assert s == s[..k] + ([sep] + s[k + 1..]);
    }
  }

  /** Splitting a join of separator-free parts gives back the parts. */
  lemma {:induction false} SplitJoin(parts: seq<string>, sep: char)
    requires |parts| >= 1
    requires forall i :: 0 <= i < |parts| ==> sep !in parts[i]
    ensures Split(Join(parts, sep), sep) == parts
  {
    if |parts| > 1 {
      SplitCons(parts[0], Join(parts[1..], sep), sep);
      assert forall i :: 0 <= i < |parts| - 1 ==> parts[1..][i] == parts[i + 1];
      SplitJoin(parts[1..], sep);
      assert parts == [parts[0]] + parts[1..];
    }
  }

  /** A separator-free part followed by the separator splits off as the first part. */
  lemma SplitCons(p: string, rest: string, sep: char)
    requires sep !in p
    ensures Split(p + ([sep] + rest), sep) == [p] + Split(rest, sep)
  {
    var s := p + ([sep] + rest);
    assert s[..|p|] == p;
    assert s[|p|] == sep;
    IndexOfFirst(s, sep, |p|);
    assert s[|p| + 1..] == rest;
  }

  /** The value of a character as a digit: 0-9, then a-z and A-Z as 10-35; 36 for anything else. */
  function DigitValue(c: char): (d: nat)
    ensures d <= 36
    ensures d < 10 <==> '0' <= c <= '9'
  {
    if '0' <= c <= '9' then (c as int - '0' as int)
    else if 'a' <= c <= 'z' then (c as int - 'a' as int) + 10
    else if 'A' <= c <= 'Z' then (c as int - 'A' as int) + 10
    else 36
  }

  /** The length of the longest prefix of `s` made of digits of the given radix. */
  function LeadingRun(s: string, radix: nat): (k: nat)
    ensures k <= |s|
    ensures forall i :: 0 <= i < k ==> DigitValue(s[i]) < radix
    ensures k < |s| ==> DigitValue(s[k]) >= radix
  {
    if s != [] && DigitValue(s[0]) < radix then 1 + LeadingRun(s[1..], radix) else 0
  }

  /** The number a string of digits denotes in the given radix, most significant digit first. */
  function RunValue(ds: string, radix: nat): nat
  {
    if ds == [] then 0
    else RunValue(ds[..|ds| - 1], radix) * radix + DigitValue(ds[|ds| - 1])
  }

  /** The text starts with a sign or a decimal digit. */
  predicate SignOrDigitFirst(t: string) {
    t != [] && (t[0] == '-' || t[0] == '+' || DigitValue(t[0]) < 10)
  }

  /**
   * `parseInt(s)` with no radix: skip white space, read an optional sign, then
   * read the unsigned part. No digit at all gives NaN, here `None`.
   */
  function ParseInt(s: string): (r: Option<int>)
    ensures r.Some? ==> SignOrDigitFirst(TrimStart(s))
    ensures r.Some? && r.value < 0 ==> TrimStart(s)[0] == '-'
  {
    ParseSigned(TrimStart(s))
  }

  /** `parseInt` after the white space: an optional sign, then the unsigned part. */
  function ParseSigned(t: string): (r: Option<int>)
    ensures r.Some? ==> SignOrDigitFirst(t)
    ensures r.Some? && r.value < 0 ==> t[0] == '-'
  {
    var negative := t != [] && t[0] == '-';
    var u := if t != [] && (t[0] == '-' || t[0] == '+') then t[1..] else t;
    var m := ParseUnsigned(u);
    if m.None? then None
    else
      var v: int := if negative then 0 - m.value else m.value;
      Some(v)
  }

  /**
   * The unsigned part of `parseInt`: radix 16 after a `0x`/`0X` prefix and
   * radix 10 otherwise, and then the longest run of digits of that radix.
   */
  function ParseUnsigned(u: string): (r: Option<nat>)
    ensures r.Some? ==> u != [] && DigitValue(u[0]) < 10
  {
    var hex := |u| >= 2 && u[0] == '0' && (u[1] == 'x' || u[1] == 'X');
    var body := if hex then u[2..] else u;
    var radix := if hex then 16 else 10;
    var k := LeadingRun(body, radix);
    if k == 0 then None else Some(RunValue(body[..k], radix))
  }

  /** The character of a decimal digit. */
  function DigitChar(d: nat): (c: char)
    requires d < 10
    ensures '0' <= c <= '9' && DigitValue(c) == d
  {
    ('0' as int + d) as char
  }

  /** The decimal rendering of a non-negative integer, as `String(n)` gives it. */
  function Decimal(n: nat): (s: string)
    ensures |s| >= 1
    ensures forall i :: 0 <= i < |s| ==> '0' <= s[i] <= '9'
    ensures n > 0 ==> s[0] != '0'
  {
    if n < 10 then [DigitChar(n)] else Decimal(n / 10) + [DigitChar(n % 10)]
  }

  /** Reading back a decimal rendering gives the number. */
  lemma {:induction false} RunValueOfDecimal(n: nat)
    ensures RunValue(Decimal(n), 10) == n
  {
    var s := Decimal(n);
    if n >= 10 {
      RunValueOfDecimal(n / 10);
      assert s[..|s| - 1] == Decimal(n / 10);
    } else {
      assert s[..0] == [];
    }
  }

  /** A digit run followed by a non-digit is read up to its end and no further. */
  lemma {:induction false} LeadingRunOfPrefix(ds: string, rest: string, radix: nat)
    requires forall i :: 0 <= i < |ds| ==> DigitValue(ds[i]) < radix
    requires rest == [] || DigitValue(rest[0]) >= radix
    ensures LeadingRun(ds + rest, radix) == |ds|
  {
    if ds != [] {
      assert (ds + rest)[1..] == ds[1..] + rest;
      LeadingRunOfPrefix(ds[1..], rest, radix);
    } else {
      assert ds + rest == rest;
    }
  }

  /** The unsigned part reads back what Decimal writes, up to the first non-digit. */
  lemma ParseUnsignedOfDecimal(n: nat, rest: string)
    requires rest == [] || DigitValue(rest[0]) >= 10
    requires n == 0 ==> rest == [] || (rest[0] != 'x' && rest[0] != 'X')
    ensures ParseUnsigned(Decimal(n) + rest) == Some(n)
  {
    var d := Decimal(n);
    var u := d + rest;
    assert u[0] == d[0];
    if n == 0 {
      assert d == "0";
      assert |u| >= 2 ==> u[1] == rest[0];
    }
    LeadingRunOfPrefix(d, rest, 10);
    assert u[..|d|] == d;
    RunValueOfDecimal(n);
  }

  /**
   * parseInt reads back what Decimal writes, after any white space, whatever
   * non-digit text follows (for 0 the text must not turn "0" into a
   * hexadecimal prefix).
   */
  lemma ParseIntOfDecimal(w: string, n: nat, rest: string)
    requires forall i :: 0 <= i < |w| ==> IsWhiteSpace(w[i])
    requires rest == [] || DigitValue(rest[0]) >= 10
    requires n == 0 ==> rest == [] || (rest[0] != 'x' && rest[0] != 'X')
    ensures ParseInt(w + (Decimal(n) + rest)) == Some(n)
  {
    var u := Decimal(n) + rest;
    assert u[0] == Decimal(n)[0];
    ParseUnsignedOfDecimal(n, rest);
    ParseIntUnsigned(w, u, n);
  }

  /** After white space, text that starts with a digit is read by the unsigned part alone. */
  lemma ParseIntUnsigned(w: string, u: string, m: nat)
    requires forall i :: 0 <= i < |w| ==> IsWhiteSpace(w[i])
    requires u != [] && DigitValue(u[0]) < 10
    requires ParseUnsigned(u) == Some(m)
    ensures ParseInt(w + u) == Some(m)
  {
    TrimStartAfterWhiteSpace(w, u);
    assert ParseSigned(u) == Some(m);
  }

  /** The same after a minus sign: parseInt gives the negated integer. */
  lemma ParseIntOfNegativeDecimal(w: string, n: nat, rest: string)
    requires forall i :: 0 <= i < |w| ==> IsWhiteSpace(w[i])
    requires rest == [] || DigitValue(rest[0]) >= 10
    requires n == 0 ==> rest == [] || (rest[0] != 'x' && rest[0] != 'X')
    ensures ParseInt(w + ("-" + (Decimal(n) + rest))) == Some(0 - n)
  {
    ParseUnsignedOfDecimal(n, rest);
    ParseIntNegated(w, Decimal(n) + rest, n);
  }

  /** After white space, a minus sign negates what the unsigned part reads. */
  lemma ParseIntNegated(w: string, u: string, m: nat)
    requires forall i :: 0 <= i < |w| ==> IsWhiteSpace(w[i])
    requires ParseUnsigned(u) == Some(m)
    ensures ParseInt(w + ("-" + u)) == Some(0 - m)
  {
    TrimStartAfterWhiteSpace(w, "-" + u);
    ParseSignedMinus(u, m);
  }

  /** A minus sign negates what the unsigned part reads. */
  lemma ParseSignedMinus(u: string, m: nat)
    requires ParseUnsigned(u) == Some(m)
    ensures ParseSigned("-" + u) == Some(0 - m)
  {
    assert ("-" + u)[1..] == u;
  }

  /** parseInt skips leading white space: what follows it decides the result. */
  lemma ParseIntAfterWhiteSpace(w: string, t: string)
    requires forall i :: 0 <= i < |w| ==> IsWhiteSpace(w[i])
    requires t == [] || !IsWhiteSpace(t[0])
    ensures ParseInt(w + t) == ParseInt(t)
  {
    TrimStartAfterWhiteSpace(w, t);
    TrimStartAfterWhiteSpace([], t);
    assert [] + t == t;
  }

  /** A label whose first character is a letter, such as a chemical formula, has no integer to read. */
  lemma ParseIntOfLetter(s: string)
    requires s != [] && (('a' <= s[0] <= 'z') || ('A' <= s[0] <= 'Z'))
    ensures ParseInt(s) == None
  {
  }
}
