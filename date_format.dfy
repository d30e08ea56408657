// formatDate of the web client: a pattern such as "yyyy-MM-dd HH:mm:ss"
// has its first run of each pattern letter replaced by the date's field.

module DateFormat {
  import opened Common
  import opened JavaText

  /** The fields a JavaScript Date reports: getFullYear, getMonth (0 for
    * January), getDate, getHours, getMinutes, getSeconds, getMilliseconds. */
  datatype DateFields = DateFields(
    fullYear: int, month: int, day: int, hours: int, minutes: int, seconds: int, millis: int)

  predicate ValidDate(d: DateFields) {
    && 0 <= d.month < 12 && 1 <= d.day <= 31 && 0 <= d.hours < 24
    && 0 <= d.minutes < 60 && 0 <= d.seconds < 60 && 0 <= d.millis < 1000
  }

  const DefaultPattern: string := "yyyy-MM-dd HH:mm:ss"

  /** `Math.floor((getMonth() + 3) / 3)`: the quarter holding the month. */
  function Quarter(month: int): (q: int)
    ensures 0 <= month < 12 ==> 1 <= q <= 4 && (q - 1) * 3 <= month < q * 3
  {
    (month + 3) / 3
  }

  /** One entry of the pattern table: the letter, whether a run of it is
    * matched (`M+`) or the letter alone (`S`), and the value it stands for. */
  datatype Field = Field(letter: char, repeat: bool, value: int)

  /** The pattern table in the order its keys are visited. */
  function Fields(d: DateFields): (fs: seq<Field>)
    ensures |fs| == 7
  {
    [Field('M', true, d.month + 1), Field('d', true, d.day), Field('H', true, d.hours),
     Field('m', true, d.minutes), Field('s', true, d.seconds), Field('q', true, Quarter(d.month)),
     Field('S', false, d.millis)]
  }

  // ---------------------------------------------------------------- text

  /** String.prototype.substr(start) with no length: a negative start counts
    * from the end, and a start past the end gives "". */
  function Substr(s: string, start: int): (r: string)
    ensures |r| <= |s|
    ensures 0 <= start <= |s| ==> r == s[start..]
    ensures start < 0 ==> r == s[(if |s| + start < 0 then 0 else |s| + start)..]
  {
    if start < 0 then s[(if |s| + start < 0 then 0 else |s| + start)..]
    else if start >= |s| then ""
    else s[start..]
  }

  /** `('00' + v).substr(('' + v).length)`. */
  function Pad2(v: int): string {
    Substr("00" + IntToString(v), |IntToString(v)|)
  }

  /** The text a run of n letters becomes: the plain number for a single
    * letter, the two-digit form for more. */
  function Render(v: int, n: nat): string {
    if n == 1 then IntToString(v) else Pad2(v)
  }

  /** `(getFullYear() + '').substr(4 - n)` for a run of n y's. */
  function YearText(year: int, n: nat): string {
    Substr(IntToString(year), 4 - n)
  }

  /** A value below 100 is padded to exactly two digits that read back as
    * the value. */
  lemma Pad2Digits(v: int)
    requires 0 <= v < 100
    ensures |Pad2(v)| == 2 && AllDigits(Pad2(v)) && DigitsValue(Pad2(v)) == v
  {
    var t := IntToString(v);
    assert t == NatToString(v);
    if v < 10 {
      assert Pad2(v) == ['0', t[0]];
      assert DigitsValue(['0']) == 0;
      assert Pad2(v)[..1] == ['0'];
    } else {
      assert t == NatToString(v / 10) + [DigitChar(v % 10)];
      assert |t| == 2;
      assert Pad2(v) == t;
      assert t[..1] == NatToString(v / 10);
    }
  }

  /** The number of digits in n's decimal text. */
  function DigitCount(n: nat): nat {
    if n < 10 then 1 else 1 + DigitCount(n / 10)
  }

  lemma {:induction false} NatToStringLength(n: nat)
    ensures |NatToString(n)| == DigitCount(n)
  {
    if n >= 10 {
      NatToStringLength(n / 10);
    }
  }

  /** For a four-digit year, a run of n y's (1 to 4) gives the last n
    * digits, so "yyyy" gives the whole year and "yy" its last two. */
  lemma YearLastDigits(year: int, n: nat)
    requires 1000 <= year <= 9999 && 1 <= n <= 4
    ensures |IntToString(year)| == 4
    ensures YearText(year, n) == IntToString(year)[4 - n..] && |YearText(year, n)| == n
  {
    NatToStringLength(year);
    assert DigitCount(year) == 1 + DigitCount(year / 10);
    assert DigitCount(year / 10) == 1 + DigitCount(year / 100);
    assert DigitCount(year / 100) == 1 + DigitCount(year / 1000);
  }

  // ---------------------------------------------------------------- runs

  /** Where c first occurs. */
  function IndexOfLetter(s: string, c: char): (i: nat)
    ensures i <= |s| && (i < |s| <==> c in s)
    ensures i < |s| ==> s[i] == c
    ensures forall j :: 0 <= j < i ==> s[j] != c
  {
    if s == [] then 0
    else if s[0] == c then 0
    else 1 + IndexOfLetter(s[1..], c)
  }

  /** The length of the run of c starting at i. */
  function RunFrom(s: string, c: char, i: nat): (n: nat)
    requires i <= |s|
    ensures i + n <= |s|
    ensures forall j :: i <= j < i + n ==> s[j] == c
    ensures i + n == |s| || s[i + n] != c
    decreases |s| - i
  {
    if i < |s| && s[i] == c then 1 + RunFrom(s, c, i + 1) else 0
  }

  /** n copies of c. */
  function Rep(c: char, n: nat): (r: string)
    ensures |r| == n && forall j :: 0 <= j < n ==> r[j] == c
  {
    seq(n, _ => c)
  }

  /** The first c is the first position holding c. */
  lemma IndexOfLetterAt(s: string, c: char, k: nat)
    requires k < |s| && s[k] == c && forall j :: 0 <= j < k ==> s[j] != c
    ensures IndexOfLetter(s, c) == k
  {
  }

  /** A run is as long as the letters that follow up to the first other one. */
  lemma RunFromLength(s: string, c: char, k: nat, n: nat)
    requires k + n <= |s| && forall j :: k <= j < k + n ==> s[j] == c
    requires k + n == |s| || s[k + n] != c
    ensures RunFrom(s, c, k) == n
  {
  }

  /** The first run of c, as `/(c+)/` finds it, is the first n letters
    * after a text without c, when the text after them does not start with
    * c. */
  lemma FirstRunOf(a: string, c: char, n: nat, b: string)
    requires c !in a && n >= 1 && (b == [] || b[0] != c)
    ensures var s := a + Rep(c, n) + b;
      IndexOfLetter(s, c) == |a| && RunFrom(s, c, |a|) == n
  {
    var s := a + Rep(c, n) + b;
    forall j | 0 <= j < |a| ensures s[j] != c {
      assert s[j] == a[j] && a[j] in a;
    }
    IndexOfLetterAt(s, c, |a|);
    if b != [] {
      assert s[|a| + n] == b[0];
    }
    RunFromLength(s, c, |a|, n);
  }

  /** The year step: the first run of y's replaced by the year's text. */
  function ReplaceYear(s: string, year: int): (r: string) {
    if 'y' !in s then s
    else
      var i := IndexOfLetter(s, 'y');
      var n := RunFrom(s, 'y', i);
      s[..i] + YearText(year, n) + s[i + n..]
  }

  /** One entry's step: the first run of its letter (or the letter alone)
    * replaced by the rendered value. */
  function ReplaceField(s: string, f: Field): (r: string) {
    if f.letter !in s then s
    else
      var i := IndexOfLetter(s, f.letter);
      var n := if f.repeat then RunFrom(s, f.letter, i) else 1;
      s[..i] + Render(f.value, n) + s[i + n..]
  }

  /** The steps of the pattern table, in order. */
  function ApplyFields(s: string, fs: seq<Field>): string
    decreases fs
  {
    if fs == [] then s else ApplyFields(ReplaceField(s, fs[0]), fs[1..])
  }

  /** What formatDate returns: "" for no date, otherwise the pattern after
    * the year step and the table's steps. */
  function Formatted(date: Option<DateFields>, pattern: string): string {
    if date.None? then "" else ApplyFields(ReplaceYear(pattern, date.value.fullYear), Fields(date.value))
  }

  /** Only the first run of a letter is replaced; the text before and after
    * it, later runs of the same letter included, is copied unchanged. */
  lemma ReplaceFieldOnlyFirstRun(a: string, f: Field, n: nat, b: string)
    requires f.letter !in a && n >= 1 && (b == [] || b[0] != f.letter)
    requires !f.repeat ==> n == 1
    ensures ReplaceField(a + Rep(f.letter, n) + b, f) == a + Render(f.value, n) + b
  {
    var s := a + Rep(f.letter, n) + b;
    FirstRunOf(a, f.letter, n, b);
    assert s[|a|] == f.letter;
    assert s[..|a|] == a && s[|a| + n..] == b;
  }

  /** A letter that is not in the pattern leaves it as it is. */
  lemma ReplaceFieldAbsent(s: string, f: Field)
    requires f.letter !in s
    ensures ReplaceField(s, f) == s
  {
  }

  /** The year step on the first run of y's. */
  lemma ReplaceYearOnlyFirstRun(a: string, year: int, n: nat, b: string)
    requires 'y' !in a && n >= 1 && (b == [] || b[0] != 'y')
    ensures ReplaceYear(a + Rep('y', n) + b, year) == a + YearText(year, n) + b
  {
    var s := a + Rep('y', n) + b;
    FirstRunOf(a, 'y', n, b);
    assert s[|a|] == 'y';
    assert s[..|a|] == a && s[|a| + n..] == b;
  }

  /** The for-in loop of formatDate: the year step, then each key of the
    * pattern table tested and, when its letter occurs, substituted. */
  method FormatDate(date: Option<DateFields>, pattern: Option<string>) returns (out: string)
    ensures out == Formatted(date, if pattern.None? then DefaultPattern else pattern.value)
    ensures date.None? ==> out == ""
  {
    if date.None? {
      return "";
    }
    var d := date.value;
    var fmt := if pattern.None? then DefaultPattern else pattern.value;
    fmt := YearStep(fmt, d.fullYear);
    out := ApplyTable(fmt, Fields(d));
  }

  /** The year step of formatDate: the first run of y's, if any, replaced by
    * the year's last digits. */
  method YearStep(pattern: string, year: int) returns (fmt: string)
    ensures fmt == ReplaceYear(pattern, year)
  {
    fmt := pattern;
    if 'y' in pattern {
      var i := IndexOfLetter(pattern, 'y');
      var n := RunFrom(pattern, 'y', i);
      fmt := pattern[..i] + YearText(year, n) + pattern[i + n..];
    }
  }

  /** The for-in loop over the keys of the pattern table. */
  method ApplyTable(pattern: string, fields: seq<Field>) returns (fmt: string)
    ensures fmt == ApplyFields(pattern, fields)
  {
    fmt := pattern;
    var k := 0;
    while k < |fields|
      invariant 0 <= k <= |fields|
      invariant ApplyFields(fmt, fields[k..]) == ApplyFields(pattern, fields)
    {
      var f := fields[k];
      assert fields[k..][1..] == fields[k + 1..];
      if f.letter in fmt {
        var i := IndexOfLetter(fmt, f.letter);
        var n := if f.repeat then RunFrom(fmt, f.letter, i) else 1;
        fmt := fmt[..i] + Render(f.value, n) + fmt[i + n..];
      }
      k := k + 1;
    }
  }

  // ---------------------------------------------------------------- the default pattern

  /** Text made of digits and the default pattern's separators only, so
    * no pattern letter occurs in it. */
  predicate Plain(p: string) {
    p == [] || ((IsDigit(p[0]) || p[0] == '-' || p[0] == ' ' || p[0] == ':') && Plain(p[1..]))
  }

  /** A character no plain text holds: a pattern letter. */
  predicate PatternLetter(c: char) {
    !IsDigit(c) && c != '-' && c != ' ' && c != ':'
  }

  lemma {:induction false} PlainAppend(a: string, b: string)
    requires Plain(a) && Plain(b)
    ensures Plain(a + b)
  {
    if a != [] {
      assert (a + b)[0] == a[0] && (a + b)[1..] == a[1..] + b;
      PlainAppend(a[1..], b);
    } else {
      assert a + b == b;
    }
  }

  lemma {:induction false} LetterNotInPlain(p: string, c: char)
    requires Plain(p) && PatternLetter(c)
    ensures c !in p
  {
    if p != [] {
      LetterNotInPlain(p[1..], c);
      assert p == [p[0]] + p[1..];
    }
  }

  lemma {:induction false} DigitsArePlain(s: string)
    requires AllDigits(s)
    ensures Plain(s)
  {
    if s != [] {
      assert AllDigits(s[1..]) by {
        forall i | 0 <= i < |s| - 1 ensures IsDigit(s[1..][i]) {
          assert s[1..][i] == s[i + 1];
        }
      }
      DigitsArePlain(s[1..]);
    }
  }

  /** A doubled letter after plain text becomes the two-digit value. */
  lemma PlainStep(p: string, f: Field, rest: string)
    requires Plain(p) && f.repeat && PatternLetter(f.letter)
    requires rest == [] || rest[0] != f.letter
    ensures ReplaceField(p + [f.letter, f.letter] + rest, f) == p + Pad2(f.value) + rest
  {
    LetterNotInPlain(p, f.letter);
    assert Rep(f.letter, 2) == [f.letter, f.letter];
    ReplaceFieldOnlyFirstRun(p, f, 2, rest);
  }

  /** Each entry's letter doubled, followed by its separator. */
  function Doubled(fs: seq<Field>, seps: seq<string>): string
    requires |seps| == |fs|
  {
    if fs == [] then "" else [fs[0].letter, fs[0].letter] + seps[0] + Doubled(fs[1..], seps[1..])
  }

  /** Each entry's two-digit value, followed by its separator. */
  function Rendered(fs: seq<Field>, seps: seq<string>): string
    requires |seps| == |fs|
  {
    if fs == [] then "" else Pad2(fs[0].value) + seps[0] + Rendered(fs[1..], seps[1..])
  }

  /** Doubled letters split after the first entry's letters. */
  lemma DoubledHead(p: string, fs: seq<Field>, seps: seq<string>)
    requires |seps| == |fs| && fs != []
    ensures p + Doubled(fs, seps) == p + [fs[0].letter, fs[0].letter] + (seps[0] + Doubled(fs[1..], seps[1..]))
  {
  }

  /** After the first entry's letters comes a separator, or nothing. */
  lemma DoubledHeadEnds(fs: seq<Field>, seps: seq<string>)
    requires |seps| == |fs| && fs != [] && Plain(seps[0]) && PatternLetter(fs[0].letter)
    requires seps[0] == [] ==> |fs| == 1
    ensures var rest := seps[0] + Doubled(fs[1..], seps[1..]); rest == [] || rest[0] != fs[0].letter
  {
    var rest := seps[0] + Doubled(fs[1..], seps[1..]);
    if seps[0] != [] {
      assert rest[0] == seps[0][0];
    }
  }

  /** The first entry's step on doubled letters after plain text. */
  lemma DoubledStep(p: string, fs: seq<Field>, seps: seq<string>)
    requires |seps| == |fs| && fs != [] && Plain(p)
    requires fs[0].repeat && PatternLetter(fs[0].letter) && Plain(seps[0])
    requires seps[0] == [] ==> |fs| == 1
    ensures ReplaceField(p + Doubled(fs, seps), fs[0]) == p + Pad2(fs[0].value) + (seps[0] + Doubled(fs[1..], seps[1..]))
  {
    DoubledHead(p, fs, seps);
    DoubledHeadEnds(fs, seps);
    PlainStep(p, fs[0], seps[0] + Doubled(fs[1..], seps[1..]));
  }

  /** The text before the remaining letters stays plain. */
  lemma DoubledStepPlain(p: string, v: int, sep: string)
    requires Plain(p) && Plain(sep) && 0 <= v < 100
    ensures Plain(p + Pad2(v) + sep)
  {
    Pad2Digits(v);
    DigitsArePlain(Pad2(v));
    PlainAppend(p, Pad2(v));
    PlainAppend(p + Pad2(v), sep);
  }

  /** The first step, regrouped so the next entry starts after plain text. */
  lemma DoubledStepRegrouped(p: string, fs: seq<Field>, seps: seq<string>)
    requires |seps| == |fs| && Plain(p) && fs != []
    requires fs[0].repeat && PatternLetter(fs[0].letter) && Plain(seps[0])
    requires seps[0] == [] ==> |fs| == 1
    ensures ReplaceField(p + Doubled(fs, seps), fs[0]) ==
      p + Pad2(fs[0].value) + seps[0] + Doubled(fs[1..], seps[1..])
  {
    DoubledStep(p, fs, seps);
    Regroup(p, Pad2(fs[0].value), seps[0], Doubled(fs[1..], seps[1..]));
  }

  /** The rendered text split after its first entry. */
  lemma RenderedHead(p: string, fs: seq<Field>, seps: seq<string>)
    requires |seps| == |fs| && fs != []
    ensures p + Pad2(fs[0].value) + seps[0] + Rendered(fs[1..], seps[1..]) == p + Rendered(fs, seps)
  {
    var pad, rest := Pad2(fs[0].value), Rendered(fs[1..], seps[1..]);
    assert Rendered(fs, seps) == pad + seps[0] + rest;
    Append3(p, pad, seps[0]);
    Append3(p, pad + seps[0], rest);
  }

  /** Doubled letters separated by plain text each become their two-digit
    * value, and the separators are copied. */
  lemma {:induction false} DoubledLetters(p: string, fs: seq<Field>, seps: seq<string>)
    requires |seps| == |fs| && Plain(p)
    requires forall i :: 0 <= i < |fs| ==>
      fs[i].repeat && PatternLetter(fs[i].letter) && Plain(seps[i]) && 0 <= fs[i].value < 100
    requires forall i :: 0 <= i < |fs| - 1 ==> seps[i] != []
    ensures ApplyFields(p + Doubled(fs, seps), fs) == p + Rendered(fs, seps)
    decreases fs
  {
    if fs != [] {
      var q := p + Pad2(fs[0].value) + seps[0];
      DoubledStepRegrouped(p, fs, seps);
      DoubledStepPlain(p, fs[0].value, seps[0]);
      DoubledLetters(q, fs[1..], seps[1..]);
      RenderedHead(p, fs, seps);
      ApplyFieldsThrough(p + Doubled(fs, seps), fs, q + Doubled(fs[1..], seps[1..]), p + Rendered(fs, seps));
    }
  }

  /** The table's steps after a first step that is known. */
  lemma ApplyFieldsThrough(s: string, fs: seq<Field>, next: string, out: string)
    requires fs != [] && ReplaceField(s, fs[0]) == next && ApplyFields(next, fs[1..]) == out
    ensures ApplyFields(s, fs) == out
  {
  }

  lemma Append3(a: string, b: string, c: string)
    ensures a + b + c == a + (b + c)
  {
  }

  lemma Regroup(a: string, b: string, c: string, d: string)
    ensures a + b + (c + d) == (a + b + c) + d
  {
  }

  /** Two-digit values and plain separators make plain text. */
  lemma {:induction false} RenderedPlain(fs: seq<Field>, seps: seq<string>)
    requires |seps| == |fs|
    requires forall i :: 0 <= i < |fs| ==> Plain(seps[i]) && 0 <= fs[i].value < 100
    ensures Plain(Rendered(fs, seps))
  {
    if fs != [] {
      RenderedPlain(fs[1..], seps[1..]);
      DoubledStepPlain("", fs[0].value, seps[0]);
      assert "" + Pad2(fs[0].value) + seps[0] == Pad2(fs[0].value) + seps[0];
      PlainAppend(Pad2(fs[0].value) + seps[0], Rendered(fs[1..], seps[1..]));
    }
  }

  /** Entries whose letters are absent leave plain text as it is. */
  lemma {:induction false} AbsentLetters(s: string, fs: seq<Field>)
    requires Plain(s) && forall i :: 0 <= i < |fs| ==> PatternLetter(fs[i].letter)
    ensures ApplyFields(s, fs) == s
  {
    if fs != [] {
      LetterNotInPlain(s, fs[0].letter);
      AbsentLetters(s, fs[1..]);
    }
  }

  lemma {:induction false} ApplyFieldsConcat(s: string, a: seq<Field>, b: seq<Field>)
    ensures ApplyFields(s, a + b) == ApplyFields(ApplyFields(s, a), b)
    decreases a
  {
    if a == [] {
      assert a + b == b;
    } else {
      assert (a + b)[0] == a[0] && (a + b)[1..] == a[1..] + b;
      ApplyFieldsConcat(ReplaceField(s, a[0]), a[1..], b);
    }
  }

  lemma Assoc(a: string, b: string, c: string)
    ensures a + (b + c) == a + b + c
  {
  }

  /** The separators after the default pattern's month, day, hours, minutes
    * and seconds. */
  const DefaultSeparators: seq<string> := ["-", " ", ":", ":", ""]

  /** The default pattern is four y's and then the first five entries'
    * letters doubled between its separators. */
  lemma DefaultPatternLetters(d: DateFields)
    ensures DefaultPattern == "" + Rep('y', 4) + ("-" + Doubled(Fields(d)[..5], DefaultSeparators))
  {
    var five := Fields(d)[..5];
    var seps := DefaultSeparators;
    assert Doubled(five[4..], seps[4..]) == "ss";
    assert Doubled(five[3..], seps[3..]) == "mm:ss";
    assert Doubled(five[2..], seps[2..]) == "HH:mm:ss";
    assert Doubled(five[1..], seps[1..]) == "dd HH:mm:ss";
    assert Rep('y', 4) == "yyyy";
  }

  /** The first five entries are doubled letters with plain separators,
    * only the last of them empty, and values below 100. */
  lemma DefaultTableShape(d: DateFields)
    requires ValidDate(d)
    ensures var five := Fields(d)[..5];
      && |DefaultSeparators| == |five|
      && (forall i :: 0 <= i < |five| ==>
        five[i].repeat && PatternLetter(five[i].letter) && Plain(DefaultSeparators[i]) && 0 <= five[i].value < 100)
      && (forall i :: 0 <= i < |five| - 1 ==> DefaultSeparators[i] != [])
  {
    assert Plain("-") && Plain(" ") && Plain(":") && Plain("");
  }

  /** The year step on the default pattern. */
  lemma DefaultYearStep(d: DateFields)
    requires 1000 <= d.fullYear <= 9999
    ensures ReplaceYear(DefaultPattern, d.fullYear) ==
      IntToString(d.fullYear) + "-" + Doubled(Fields(d)[..5], DefaultSeparators)
  {
    var y := IntToString(d.fullYear);
    var dd := Doubled(Fields(d)[..5], DefaultSeparators);
    var b := "-" + dd;
    DefaultPatternLetters(d);
    assert b[0] == '-';
    ReplaceYearOnlyFirstRun("", d.fullYear, 4, b);
    YearLastDigits(d.fullYear, 4);
    assert YearText(d.fullYear, 4) == y;
    assert "" + y == y;
    Assoc(y, "-", dd);
  }

  /** The table's steps on plain text followed by the default pattern's
    * doubled letters. */
  lemma DefaultTableSteps(p: string, d: DateFields)
    requires Plain(p) && ValidDate(d)
    ensures ApplyFields(p + Doubled(Fields(d)[..5], DefaultSeparators), Fields(d)) ==
      p + Rendered(Fields(d)[..5], DefaultSeparators)
  {
    var fs := Fields(d);
    var five := fs[..5];
    var r := Rendered(five, DefaultSeparators);
    DefaultTableShape(d);
    DoubledLetters(p, five, DefaultSeparators);
    assert fs == five + fs[5..];
    ApplyFieldsConcat(p + Doubled(five, DefaultSeparators), five, fs[5..]);
    RenderedPlain(five, DefaultSeparators);
    PlainAppend(p, r);
    TrailingFieldLetters(d);
    AbsentLetters(p + r, fs[5..]);
  }

  /** The entries after the default pattern's five are the quarter and the
    * milliseconds, whose letters plain text never holds. */
  lemma TrailingFieldLetters(d: DateFields)
    ensures forall i :: 0 <= i < |Fields(d)[5..]| ==> PatternLetter(Fields(d)[5..][i].letter)
  {
    var rest := Fields(d)[5..];
    assert rest == [Field('q', true, Quarter(d.month)), Field('S', false, d.millis)];
  }

  lemma FlattenRendered(a1: string, s1: string, a2: string, s2: string, a3: string, s3: string,
                        a4: string, s4: string, a5: string)
    ensures a1 + s1 + (a2 + s2 + (a3 + s3 + (a4 + s4 + (a5 + "" + "")))) ==
      a1 + s1 + a2 + s2 + a3 + s3 + a4 + s4 + a5
  {
    assert a5 + "" + "" == a5;
  }

  /** The default pattern's five two-digit values and their separators. */
  lemma DefaultRendered(d: DateFields)
    ensures Rendered(Fields(d)[..5], DefaultSeparators) ==
      Pad2(d.month + 1) + "-" + Pad2(d.day) + " " + Pad2(d.hours) + ":" + Pad2(d.minutes) + ":" + Pad2(d.seconds)
  {
    var five := Fields(d)[..5];
    var seps := DefaultSeparators;
    var r4 := Rendered(five[4..], seps[4..]);
    var r3 := Rendered(five[3..], seps[3..]);
    var r2 := Rendered(five[2..], seps[2..]);
    var r1 := Rendered(five[1..], seps[1..]);
    assert five[4..][1..] == [] && seps[4..][1..] == [];
    assert five[4..][0].value == d.seconds && seps[4..][0] == "";
    assert Rendered(five[4..][1..], seps[4..][1..]) == "";
    assert r4 == Pad2(d.seconds) + "" + "";
    assert five[3..][1..] == five[4..];
    assert r3 == Pad2(d.minutes) + ":" + r4;
    assert five[2..][1..] == five[3..];
    assert r2 == Pad2(d.hours) + ":" + r3;
    assert five[1..][1..] == five[2..];
    assert r1 == Pad2(d.day) + " " + r2;
    assert Rendered(five, seps) == Pad2(d.month + 1) + "-" + r1;
    FlattenRendered(Pad2(d.month + 1), "-", Pad2(d.day), " ", Pad2(d.hours), ":", Pad2(d.minutes), ":", Pad2(d.seconds));
  }

  lemma PrefixFlatten(p: string, a1: string, s1: string, a2: string, s2: string, a3: string, s3: string,
                      a4: string, s4: string, a5: string)
    ensures p + (a1 + s1 + a2 + s2 + a3 + s3 + a4 + s4 + a5) == p + a1 + s1 + a2 + s2 + a3 + s3 + a4 + s4 + a5
  {
  }

  /** With the default pattern, a valid date with a four-digit year is
    * printed as year-month-day hours:minutes:seconds, the month counted from
    * 1 and every field but the year on two digits. */
  lemma DefaultPatternLayout(d: DateFields)
    requires ValidDate(d) && 1000 <= d.fullYear <= 9999
    ensures Formatted(Some(d), DefaultPattern) ==
      IntToString(d.fullYear) + "-" + Pad2(d.month + 1) + "-" + Pad2(d.day) + " "
      + Pad2(d.hours) + ":" + Pad2(d.minutes) + ":" + Pad2(d.seconds)
  {
    var y := IntToString(d.fullYear);
    YearLastDigits(d.fullYear, 4);
    DigitsArePlain(y);
    PlainAppend(y, "-");
    DefaultYearStep(d);
    DefaultTableSteps(y + "-", d);
    DefaultRendered(d);
    PrefixFlatten(y + "-", Pad2(d.month + 1), "-", Pad2(d.day), " ", Pad2(d.hours), ":", Pad2(d.minutes), ":", Pad2(d.seconds));
  }
}
