// The slice of java.lang.String, java.lang.Integer and Spring's StringUtils
// that the services rely on: trim, hasText, parseInt, split, join, contains,
// and 32-bit int arithmetic.

module JavaText {
  import opened Common

  // ---------------------------------------------------------------- int32

  const IntMin: int := -0x8000_0000
  const IntMax: int := 0x7fff_ffff

  predicate InInt32(x: int) { IntMin <= x <= IntMax }

  /** The value a Java int holds after an arithmetic result x wraps around. */
  function Wrap32(x: int): (r: int)
    ensures InInt32(r)
    ensures (r - x) % 0x1_0000_0000 == 0
    ensures InInt32(x) ==> r == x
  {
    (x + 0x8000_0000) % 0x1_0000_0000 - 0x8000_0000
  }

  // ---------------------------------------------------------------- blanks

  /** String.trim removes every leading and trailing char at or below U+0020. */
  predicate TrimmedChar(c: char) { c <= ' ' }

  function TrimStart(s: string): (r: string)
    ensures |r| <= |s| && r == s[|s| - |r|..]
    ensures r == [] || !TrimmedChar(r[0])
    ensures forall i :: 0 <= i < |s| - |r| ==> TrimmedChar(s[i])
  {
    if s == [] || !TrimmedChar(s[0]) then s else TrimStart(s[1..])
  }

  function TrimEnd(s: string): (r: string)
    ensures |r| <= |s| && r == s[..|r|]
    ensures r == [] || !TrimmedChar(r[|r| - 1])
    ensures forall i :: |r| <= i < |s| ==> TrimmedChar(s[i])
  {
    if s == [] || !TrimmedChar(s[|s| - 1]) then s else TrimEnd(s[..|s| - 1])
  }

  function Trim(s: string): string {
    TrimEnd(TrimStart(s))
  }

  /** trim() is empty exactly when every char is at or below U+0020. */
  lemma {:induction false} TrimEmptyIff(s: string)
    ensures Trim(s) == [] <==> forall i :: 0 <= i < |s| ==> TrimmedChar(s[i])
  {
    var t := TrimStart(s);
    if t == [] {
    } else {
      assert !TrimmedChar(t[0]);
      assert t[0] == s[|s| - |t|];
    }
  }

  /** Character.isWhitespace: the Unicode space, line and paragraph separators
    * other than the no-break ones, plus the ASCII controls TAB..CR and FS..US. */
  predicate JavaWhitespace(c: char) {
    var n := c as int;
    n == 0x20 || (0x09 <= n <= 0x0D) || (0x1C <= n <= 0x1F)
    || n == 0x1680 || (0x2000 <= n <= 0x2006) || (0x2008 <= n <= 0x200A)
    || n == 0x2028 || n == 0x2029 || n == 0x205F || n == 0x3000
  }

  /** StringUtils.hasText: non-null and holding a non-whitespace char. */
  predicate HasText(s: Option<string>) {
    s.Some? && exists i :: 0 <= i < |s.value| && !JavaWhitespace(s.value[i])
  }

  /** A null or "" string, the `x == null || x.isEmpty()` test. */
  predicate NullOrEmpty(s: Option<string>) {
    s.None? || s.value == []
  }

  // ---------------------------------------------------------------- contains

  /** String.contains, and SQL `LIKE CONCAT('%', k, '%')`. */
  predicate Contains(hay: string, needle: string) {
    exists i :: 0 <= i <= |hay| && needle <= hay[i..]
  }

  // ---------------------------------------------------------------- integers

  predicate IsDigit(c: char) { '0' <= c <= '9' }

  predicate AllDigits(s: string) { forall i :: 0 <= i < |s| ==> IsDigit(s[i]) }

  function DigitsValue(s: string): (n: nat)
    requires AllDigits(s)
  {
    if s == [] then 0 else DigitsValue(s[..|s| - 1]) * 10 + (s[|s| - 1] - '0') as int
  }

  /** Integer.parseInt: an optional sign, then one or more decimal digits whose
    * value fits in an int; anything else is a NumberFormatException (None). */
  function ParseInt(s: string): (r: Option<int>)
    ensures r.Some? ==> InInt32(r.value)
    ensures r.Some? ==> |s| > 0
  {
    if |s| == 0 then None
    else if s[0] == '-' || s[0] == '+' then
      if |s| == 1 || !AllDigits(s[1..]) then None
      else
        var v: int := if s[0] == '-' then -(DigitsValue(s[1..]) as int) else DigitsValue(s[1..]);
        if InInt32(v) then Some(v) else None
    else if !AllDigits(s) then None
    else if InInt32(DigitsValue(s)) then Some(DigitsValue(s)) else None
  }

  function DigitChar(d: nat): (c: char)
    requires d < 10
    ensures IsDigit(c) && (c - '0') as int == d
  {
    ('0' as int + d) as char
  }

  /** The decimal text of a non-negative number, as String.valueOf prints it. */
  function NatToString(n: nat): (s: string)
    ensures |s| >= 1 && AllDigits(s)
    ensures n < 10 <==> |s| == 1
  {
    if n < 10 then [DigitChar(n)] else NatToString(n / 10) + [DigitChar(n % 10)]
  }

  function IntToString(n: int): (s: string) {
    if n < 0 then "-" + NatToString(-n) else NatToString(n)
  }

  lemma {:induction false} DigitsValueOfNatToString(n: nat)
    ensures DigitsValue(NatToString(n)) == n
  {
    if n >= 10 {
      var s := NatToString(n);
      var prefix := NatToString(n / 10);
      assert s[..|s| - 1] == prefix;
      DigitsValueOfNatToString(n / 10);
    }
  }

  /** parseInt reads back every int that valueOf prints. */
  lemma {:induction false} ParseIntOfIntToString(n: int)
    requires InInt32(n)
    ensures ParseInt(IntToString(n)) == Some(n)
  {
    var s := IntToString(n);
    if n < 0 {
      var digits := NatToString(-n);
      assert s == "-" + digits;
      assert s[1..] == digits;
      DigitsValueOfNatToString(-n);
      assert DigitsValue(s[1..]) == -n;
    } else {
      DigitsValueOfNatToString(n);
      assert IsDigit(s[0]);
    }
  }

  // ---------------------------------------------------------------- split/join

  /** The pieces of s between occurrences of sep, empty pieces kept. */
  function SplitAll(s: string, sep: char): (r: seq<string>)
    ensures |r| >= 1
    ensures forall i :: 0 <= i < |r| ==> sep !in r[i]
  {
    if s == [] then [[]]
    else
      var rest := SplitAll(s[1..], sep);
      if s[0] == sep then [[]] + rest else [[s[0]] + rest[0]] + rest[1..]
  }

  function DropTrailingEmpty(r: seq<string>): (q: seq<string>)
    ensures |q| <= |r| && q == r[..|q|]
    ensures q == [] || q[|q| - 1] != []
  {
    if r != [] && r[|r| - 1] == [] then DropTrailingEmpty(r[..|r| - 1]) else r
  }

  /** String.split with a one-char literal separator: a string without the
    * separator comes back whole (so "" gives [""]); otherwise the pieces,
    * with trailing empty pieces removed. */
  function Split(s: string, sep: char): (r: seq<string>)
    ensures forall i :: 0 <= i < |r| ==> sep !in r[i]
  {
    if sep !in s then [s] else DropTrailingEmpty(SplitAll(s, sep))
  }

  /** String.join(sep, parts). */
  function Join(parts: seq<string>, sep: char): string {
    if |parts| == 0 then ""
    else if |parts| == 1 then parts[0]
    else parts[0] + [sep] + Join(parts[1..], sep)
  }

  lemma {:induction false} SplitAllNoSep(a: string, sep: char)
    requires sep !in a
    ensures SplitAll(a, sep) == [a]
  {
    if a != [] {
      assert a[0] != sep && sep !in a[1..];
      SplitAllNoSep(a[1..], sep);
      assert [a[0]] + a[1..] == a;
    }
  }

  lemma {:induction false} SplitAllPrefix(a: string, sep: char, t: string)
    requires sep !in a
    ensures SplitAll(a + [sep] + t, sep) == [a] + SplitAll(t, sep)
  {
    if a == [] {
      assert a + [sep] + t == [sep] + t;
      assert ([sep] + t)[1..] == t;
    } else {
      assert (a + [sep] + t)[1..] == a[1..] + [sep] + t;
      SplitAllPrefix(a[1..], sep, t);
      assert [a[0]] + a[1..] == a;
    }
  }

  lemma {:induction false} SplitAllJoin(parts: seq<string>, sep: char)
    requires |parts| >= 1
    requires forall i :: 0 <= i < |parts| ==> sep !in parts[i]
    ensures SplitAll(Join(parts, sep), sep) == parts
  {
    if |parts| == 1 {
      SplitAllNoSep(parts[0], sep);
    } else {
      SplitAllJoin(parts[1..], sep);
      SplitAllPrefix(parts[0], sep, Join(parts[1..], sep));
      assert [parts[0]] + parts[1..] == parts;
    }
  }

  lemma {:induction false} JoinHasSep(parts: seq<string>, sep: char)
    requires |parts| >= 2
    ensures sep in Join(parts, sep)
  {
    assert Join(parts, sep)[|parts[0]|] == sep;
  }

  /** A list of non-empty pieces without the separator survives a join then a
    * split. */
  lemma SplitJoinRoundTrip(parts: seq<string>, sep: char)
    requires |parts| >= 1
    requires forall i :: 0 <= i < |parts| ==> parts[i] != [] && sep !in parts[i]
    ensures Split(Join(parts, sep), sep) == parts
  {
    if |parts| == 1 {
    } else {
      JoinHasSep(parts, sep);
      SplitAllJoin(parts, sep);
    }
  }

  /** A column with text split on "|"; a blank or null column is no list. */
  function PipeList(column: Option<string>): (r: seq<string>)
    ensures !HasText(column) ==> r == []
  {
    if HasText(column) then Split(column.value, '|') else []
  }

  /** Names that are not blank and contain no "|" are read back as joined. */
  lemma PipeListRoundTrip(names: seq<string>)
    requires names != []
    requires forall i :: 0 <= i < |names| ==> HasText(Some(names[i])) && '|' !in names[i]
    ensures PipeList(Some(Join(names, '|'))) == names
  {
    assert forall i :: 0 <= i < |names| ==> names[i] != "";
    SplitJoinRoundTrip(names, '|');
    JoinKeepsText(names, '|');
  }

  /** Joining keeps the text of the first name, so the result has text. */
  lemma {:induction false} JoinKeepsText(names: seq<string>, sep: char)
    requires names != [] && HasText(Some(names[0]))
    ensures HasText(Some(Join(names, sep)))
  {
    var w :| w in names[0] && !JavaWhitespace(w);
    if |names| > 1 {
      assert Join(names, sep) == names[0] + [sep] + Join(names[1..], sep);
    }
    assert w in Join(names, sep);
  }
}
