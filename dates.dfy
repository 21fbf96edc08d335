/**
 * Date normalisation for date questions: an Italian "<day> <month name>
 * <year>" expression is turned into YYYY-MM-DD, a value already in that form
 * passes through, and anything else goes to the host platform's date parser.
 */
module Dates {

  import opened Optional
  import opened JsText

  /** The month table: full Italian month names and their three-letter
      abbreviations, each mapped to its two-digit month number. */
  const MonthTable: seq<(string, string)> := [
    ("gennaio", "01"), ("febbraio", "02"), ("marzo", "03"), ("aprile", "04"),
    ("maggio", "05"), ("giugno", "06"), ("luglio", "07"), ("agosto", "08"),
    ("settembre", "09"), ("ottobre", "10"), ("novembre", "11"), ("dicembre", "12"),
    ("gen", "01"), ("feb", "02"), ("mar", "03"), ("apr", "04"), ("mag", "05"),
    ("giu", "06"), ("lug", "07"), ("ago", "08"), ("set", "09"), ("ott", "10"),
    ("nov", "11"), ("dic", "12")
  ]

  /** Look a key up among the table's own entries, from index `i` on. */
  function Lookup(table: seq<(string, string)>, key: string, i: nat := 0): (r: Option<string>)
    requires i <= |table|
    ensures r.Some? ==> exists j :: i <= j < |table| && table[j] == (key, r.value)
    ensures r.None? <==> forall j :: i <= j < |table| ==> table[j].0 != key
    decreases |table| - i
  {
    if i == |table| then None
    else if table[i].0 == key then Some(table[i].1)
    else Lookup(table, key, i + 1)
  }

  /** The lookup returns the first entry with the key. */
  lemma {:induction false} LookupAt(table: seq<(string, string)>, key: string, i: nat, from: nat := 0)
    requires from <= i < |table| && table[i].0 == key
    requires forall j :: from <= j < i ==> table[j].0 != key
    ensures Lookup(table, key, from) == Some(table[i].1)
    decreases i - from
  {
    if from < i {
      LookupAt(table, key, i, from + 1);
    }
  }

  /** Every month number in the table has two digits. */
  lemma MonthTableShape()
    ensures forall i :: 0 <= i < |MonthTable| ==>
      |MonthTable[i].1| == 2 && IsDigit(MonthTable[i].1[0]) && IsDigit(MonthTable[i].1[1])
  {
  }

  /** The entries of the table: words of one to nine lower-case letters. */
  lemma MonthTableWords()
    ensures forall i :: 0 <= i < |MonthTable| ==>
      0 < |MonthTable[i].0| <= 9 && forall k :: 0 <= k < |MonthTable[i].0| ==> IsAsciiLower(MonthTable[i].0[k])
  {
  }

  /** A table whose values all have two digits yields two-digit values. */
  lemma TwoDigitValues(table: seq<(string, string)>, key: string)
    requires forall i :: 0 <= i < |table| ==>
      |table[i].1| == 2 && IsDigit(table[i].1[0]) && IsDigit(table[i].1[1])
    ensures var r := Lookup(table, key); r.Some? ==> |r.value| == 2 && AllDigits(r.value)
  {
    var r := Lookup(table, key);
    if r.Some? {
      var i :| 0 <= i < |table| && table[i] == (key, r.value);
    }
  }

  /** Month number of a month word, from the table's own entries: always two digits. */
  function MonthNumber(word: string): (r: Option<string>)
    ensures r.Some? ==> |r.value| == 2 && AllDigits(r.value)
  {
    MonthTableShape();
    TwoDigitValues(MonthTable, word);
    Lookup(MonthTable, word)
  }

  /** The source text of JavaScript's `Object` function, which is what the
      template literal prints when the month lookup lands on
      `Object.prototype.constructor`. */
  const ObjectFunctionText: string := "function Object() { [native code] }"

  /** `mesiItaliani[mese]` as JavaScript evaluates it on a plain object:
      own entries first, then the properties inherited from
      `Object.prototype`. Of those, only `constructor` consists of lower-case
      letters alone, so it is the only one the regex can capture. */
  function MonthPropertyAsWritten(word: string): (r: Option<string>)
    ensures MonthNumber(word).Some? ==> r == MonthNumber(word)
    ensures word == "constructor" ==> r == Some(ObjectFunctionText)
  {
    MonthTableWords();
    var own := MonthNumber(word);
    if own.Some? then own
    else if word == "constructor" then Some(ObjectFunctionText)
    else None
  }

  // ----- the regex (\d{1,2})\s+([a-z]+)\s+(\d{4}) -----

  /** Length of the longest run of white space from index `i` (`\s+`, greedy). */
  function SpaceRun(s: string, i: nat): (n: nat)
    requires i <= |s|
    ensures i + n <= |s|
    ensures forall k :: i <= k < i + n ==> IsSpace(s[k])
    ensures i + n == |s| || !IsSpace(s[i + n])
    decreases |s| - i
  {
    if i < |s| && IsSpace(s[i]) then 1 + SpaceRun(s, i + 1) else 0
  }

  /** Length of the longest run of `[a-z]` from index `i` (`[a-z]+`, greedy). */
  function LetterRun(s: string, i: nat): (n: nat)
    requires i <= |s|
    ensures i + n <= |s|
    ensures forall k :: i <= k < i + n ==> IsAsciiLower(s[k])
    ensures i + n == |s| || !IsAsciiLower(s[i + n])
    decreases |s| - i
  {
    if i < |s| && IsAsciiLower(s[i]) then 1 + LetterRun(s, i + 1) else 0
  }

  /** The three capture groups of a match. */
  datatype DateMatch = DateMatch(day: string, month: string, year: string)

  predicate WellFormed(m: DateMatch) {
    1 <= |m.day| <= 2 && AllDigits(m.day) &&
    m.month != [] && (forall k :: 0 <= k < |m.month| ==> IsAsciiLower(m.month[k])) &&
    |m.year| == 4 && AllDigits(m.year)
  }

  /** The `n` characters of `s` from index `i` are digits. */
  predicate DigitsAt(s: string, i: nat, n: nat) {
    i + n <= |s| && forall k :: i <= k < i + n ==> IsDigit(s[k])
  }

  /** A match attempt at index `p` whose day group takes exactly `dl` digits.
      `\s+` and `[a-z]+` take their longest run: the class that follows each
      of them is disjoint from it, so giving characters back cannot produce a
      match. `\d{4}` may be followed by further digits (the regex is not
      anchored). */
  function MatchWithDay(s: string, p: nat, dl: nat): (r: Option<DateMatch>)
    requires p <= |s| && 1 <= dl <= 2
    ensures r.Some? ==> WellFormed(r.value) && p + dl <= |s| && r.value.day == s[p..p + dl]
  {
    if DigitsAt(s, p, dl) then
      var a := p + dl;
      var w1 := SpaceRun(s, a);
      var b := a + w1;
      var m := LetterRun(s, b);
      var c := b + m;
      var w2 := SpaceRun(s, c);
      var d := c + w2;
      if w1 > 0 && m > 0 && w2 > 0 && DigitsAt(s, d, 4)
      then Some(DateMatch(s[p..a], s[b..c], s[d..d + 4]))
      else None
    else None
  }

  /** A match attempt at index `p`: `\d{1,2}` is greedy, so two digits are
      tried before one. */
  function MatchAt(s: string, p: nat): (r: Option<DateMatch>)
    requires p <= |s|
    ensures r.Some? ==> WellFormed(r.value) && p < |s| && IsDigit(s[p])
  {
    var two := MatchWithDay(s, p, 2);
    if two.Some? then two else MatchWithDay(s, p, 1)
  }

  /** `s.match(re)` from index `p` on: the match at the leftmost index where
      one exists. An attempt can only succeed where the text has a digit
      (`MatchAt` says so), so the attempts at other indexes are skipped. */
  function Search(s: string, p: nat): (r: Option<DateMatch>)
    requires p <= |s|
    ensures r.Some? ==> WellFormed(r.value)
    decreases |s| - p
  {
    if p == |s| then MatchAt(s, p)
    else if !IsDigit(s[p]) then Search(s, p + 1)
    else
      var here := MatchAt(s, p);
      if here.Some? then here else Search(s, p + 1)
  }

  /** `giorno.padStart(2, '0')` for a one- or two-digit day. */
  function PadDay(day: string): (r: string)
    requires 1 <= |day| <= 2 && AllDigits(day)
    ensures |r| == 2 && AllDigits(r)
    ensures r[2 - |day|..] == day
  {
    if |day| < 2 then "0" + day else day
  }

  /** The `^\d{4}-\d{2}-\d{2}$` test. */
  predicate IsIsoDate(v: string) {
    |v| == 10 &&
    AllDigits(v[0..4]) && v[4] == '-' && AllDigits(v[5..7]) && v[7] == '-' && AllDigits(v[8..10])
  }

  /** The template `${anno}-${meseNum}-${giorno.padStart(2, '0')}`. With a
      two-digit month it is in YYYY-MM-DD form. */
  function DateText(m: DateMatch, mm: string): (r: string)
    requires WellFormed(m)
    ensures |mm| == 2 && AllDigits(mm) ==> IsIsoDate(r)
  {
    var r := m.year + "-" + mm + "-" + PadDay(m.day);
    assert r[0..4] == m.year && r[5..5 + |mm|] == mm;
    assert |mm| == 2 ==> r[8..10] == PadDay(m.day);
    r
  }

  /** `parseItalianDate` with the month lookup as a parameter: lower-case,
      trim, take the first regex match, and build `<year>-<month>-<day>`
      when the month word is found. */
  function ParseWith(str: string, lookup: string -> Option<string>): Option<string> {
    ParseNormalized(Trim(Lower(str)), lookup)
  }

  /** The part of `ParseWith` after lower-casing and trimming. */
  function ParseNormalized(s: string, lookup: string -> Option<string>): Option<string> {
    match Search(s, 0)
    case None => None
    case Some(m) =>
      match lookup(m.month)
      case None => None
      case Some(mm) => Some(DateText(m, mm))
  }

  /** `parseItalianDate` with the month lookup the code evidently intends
      (the table's own entries). Every date it yields is in YYYY-MM-DD form. */
  function ParseItalianDate(str: string): (r: Option<string>)
    ensures r.Some? ==> IsIsoDate(r.value)
    ensures r.Some? ==> Search(Trim(Lower(str)), 0).Some?
  {
    TwoDigitLookupGivesIso(Trim(Lower(str)), MonthNumber);
    ParseWith(str, MonthNumber)
  }

  /** With a lookup that only yields two-digit numbers, every date the parse
      yields is in YYYY-MM-DD form and comes from a match. */
  lemma TwoDigitLookupGivesIso(s: string, lookup: string -> Option<string>)
    requires forall w :: lookup(w).Some? ==> |lookup(w).value| == 2 && AllDigits(lookup(w).value)
    ensures var r := ParseNormalized(s, lookup); r.Some? ==> IsIsoDate(r.value) && Search(s, 0).Some?
  {
  }

  /** `parseItalianDate` exactly as written, with the plain-object lookup. */
  function ParseItalianDateAsWritten(str: string): Option<string> {
    ParseWith(str, MonthPropertyAsWritten)
  }

  /** The date chosen for a date question, in the order the source tries the
      rules: the Italian pattern, then a value already in YYYY-MM-DD form
      (taken as it is), then `hostParse`, which stands for `new Date(value)`
      followed by `toISOString().split('T')[0]` (None when the platform
      cannot parse the value). None means the field is left untouched. Every
      result that does not come from the host parser is in YYYY-MM-DD form. */
  function NormalizeDate(value: string, hostParse: string -> Option<string>): (r: Option<string>)
    ensures r.Some? && r != hostParse(value) ==> IsIsoDate(r.value)
    ensures ParseItalianDate(value).Some? ==> r == ParseItalianDate(value)
    ensures ParseItalianDate(value).None? ==> r == (if IsIsoDate(value) then Some(value) else hostParse(value))
  {
    var italian := ParseItalianDate(value);
    if italian.Some? then italian
    else if IsIsoDate(value) then Some(value)
    else hostParse(value)
  }

  // ----- properties -----

  /** A string without white space holds no match. */
  lemma {:induction false} NoSpaceNoMatch(s: string, p: nat)
    requires p <= |s|
    requires forall k :: 0 <= k < |s| ==> !IsSpace(s[k])
    ensures Search(s, p) == None
    decreases |s| - p
  {
    if p < |s| {
      NoSpaceNoMatch(s, p + 1);
    }
  }

  /** Lower-casing and trimming never introduce white space. */
  lemma NoSpaceSurvives(str: string)
    requires forall k :: 0 <= k < |str| ==> !IsSpace(str[k])
    ensures var s := Trim(Lower(str)); forall k :: 0 <= k < |s| ==> !IsSpace(s[k])
  {
    var l := Lower(str);
    assert forall k :: 0 <= k < |l| ==> !IsSpace(l[k]);
  }

  /** Text without white space is never an Italian date. */
  lemma NoSpaceNoItalianDate(str: string)
    requires forall k :: 0 <= k < |str| ==> !IsSpace(str[k])
    ensures ParseItalianDate(str) == None
  {
    NoSpaceSurvives(str);
    NoSpaceNoMatch(Trim(Lower(str)), 0);
  }

  /** A value already in YYYY-MM-DD form is written unchanged: the Italian
      pattern cannot match it (it has no white space), and the second rule
      takes it. */
  lemma IsoDatePassesThrough(value: string, hostParse: string -> Option<string>)
    requires IsIsoDate(value)
    ensures NormalizeDate(value, hostParse) == Some(value)
  {
    forall k | 0 <= k < |value| ensures !IsSpace(value[k]) {
      if k < 4 { assert value[k] == value[0..4][k]; }
      else if 5 <= k < 7 { assert value[k] == value[5..7][k - 5]; }
      else if 8 <= k { assert value[k] == value[8..10][k - 8]; }
    }
    NoSpaceNoItalianDate(value);
  }

  /** No attempt succeeds at an index that does not hold a digit. */
  lemma NoMatchAtNonDigit(s: string, p: nat)
    requires p <= |s| && (p == |s| || !IsDigit(s[p]))
    ensures MatchAt(s, p) == None
  {
    assert !DigitsAt(s, p, 1) && !DigitsAt(s, p, 2);
  }

  /** The search moves past a character that is not a digit. */
  lemma SearchStep(s: string, p: nat)
    requires p < |s| && !IsDigit(s[p])
    ensures Search(s, p) == Search(s, p + 1)
  {
    NoMatchAtNonDigit(s, p);
  }

  /** The search skips a stretch of text without digits. */
  lemma {:induction false} SearchSkipsNonDigits(s: string, p: nat, q: nat)
    requires p <= q <= |s|
    requires forall k :: p <= k < q ==> !IsDigit(s[k])
    ensures Search(s, p) == Search(s, q)
    decreases q - p
  {
    if p < q {
      SearchStep(s, p);
      SearchSkipsNonDigits(s, p + 1, q);
    }
  }

  /** A single space followed by a non-space is a run of length one. */
  lemma SpaceRunOne(s: string, i: nat)
    requires i + 1 < |s| && IsSpace(s[i]) && !IsSpace(s[i + 1])
    ensures SpaceRun(s, i) == 1
  {
  }

  /** A stretch of letters closed by a non-letter is a run of exactly its length. */
  lemma {:induction false} LetterRunExact(s: string, i: nat, n: nat)
    requires i + n < |s|
    requires forall k :: i <= k < i + n ==> IsAsciiLower(s[k])
    requires !IsAsciiLower(s[i + n])
    ensures LetterRun(s, i) == n
    decreases n
  {
    if n > 0 {
      LetterRunExact(s, i + 1, n - 1);
    }
  }

  /** The attempt at `p` with a `dl`-digit day over the layout
      `<dl digits> <space> <m lower-case letters> <space> <4 digits>`. */
  lemma MatchWithDayLayout(s: string, p: nat, dl: nat, m: nat)
    requires 1 <= dl <= 2 && m > 0
    requires DigitsAt(s, p, dl) && DigitsAt(s, p + dl + m + 2, 4)
    requires s[p + dl] == ' ' && s[p + dl + 1 + m] == ' '
    requires forall k :: p + dl + 1 <= k < p + dl + 1 + m ==> IsAsciiLower(s[k])
    ensures MatchWithDay(s, p, dl) ==
      Some(DateMatch(s[p..p + dl], s[p + dl + 1..p + dl + 1 + m], s[p + dl + m + 2..p + dl + m + 6]))
  {
    var a := p + dl;
    var b := a + 1;
    var c := b + m;
    assert IsAsciiLower(s[b]);
    SpaceRunOne(s, a);
    LetterRunExact(s, b, m);
    assert IsDigit(s[c + 1]);
    SpaceRunOne(s, c);
  }

  /** The same layout seen by the full attempt at `p`: with a one-digit day
      the two-digit try fails on the space. */
  lemma MatchAtLayout(s: string, p: nat, dl: nat, m: nat)
    requires 1 <= dl <= 2 && m > 0
    requires DigitsAt(s, p, dl) && DigitsAt(s, p + dl + m + 2, 4)
    requires s[p + dl] == ' ' && s[p + dl + 1 + m] == ' '
    requires forall k :: p + dl + 1 <= k < p + dl + 1 + m ==> IsAsciiLower(s[k])
    ensures MatchAt(s, p) ==
      Some(DateMatch(s[p..p + dl], s[p + dl + 1..p + dl + 1 + m], s[p + dl + m + 2..p + dl + m + 6]))
  {
    MatchWithDayLayout(s, p, dl, m);
    if dl == 1 {
      assert !DigitsAt(s, p, 2);
    }
  }

  /** `day`, a space, `word`, a space and `year` sit in `s` from index `p`. */
  predicate Layout(s: string, p: nat, day: string, word: string, year: string) {
    p + |day| + |word| + 2 + |year| <= |s| &&
    (forall k :: 0 <= k < |day| ==> s[p + k] == day[k]) &&
    s[p + |day|] == ' ' && s[p + |day| + 1 + |word|] == ' ' &&
    (forall k :: 0 <= k < |word| ==> s[p + |day| + 1 + k] == word[k]) &&
    (forall k :: 0 <= k < |year| ==> s[p + |day| + |word| + 2 + k] == year[k])
  }

  /** Where the parts of `prefix + (day + " " + word + " " + year + suffix)` sit. */
  lemma ContextLayout(s: string, prefix: string, day: string, word: string, year: string, suffix: string)
    requires s == prefix + (day + " " + word + " " + year + suffix) && |year| == 4
    ensures Layout(s, |prefix|, day, word, year)
    ensures forall k :: 0 <= k < |prefix| ==> s[k] == prefix[k]
    ensures forall k :: 0 <= k < |suffix| ==> s[|prefix| + |day| + |word| + 6 + k] == suffix[k]
  {
    var t4 := day + " " + word + " " + year;
    var t := t4 + suffix;
    assert s == prefix + t;
    assert forall k :: 0 <= k < |t4| ==> s[|prefix| + k] == t4[k];
    var t3 := day + " " + word + " ";
    assert t4 == t3 + year;
    var t2 := day + " " + word;
    assert t3 == t2 + " ";
    assert forall k :: 0 <= k < |t2| ==> t4[k] == t2[k];
  }

  /** The search over a text whose first digit starts the layout of
      `MatchAtLayout` finds that layout. */
  lemma SearchLayout(s: string, p: nat, dl: nat, m: nat)
    requires 1 <= dl <= 2 && m > 0
    requires DigitsAt(s, p, dl) && DigitsAt(s, p + dl + m + 2, 4)
    requires forall k :: 0 <= k < p ==> !IsDigit(s[k])
    requires s[p + dl] == ' ' && s[p + dl + 1 + m] == ' '
    requires forall k :: p + dl + 1 <= k < p + dl + 1 + m ==> IsAsciiLower(s[k])
    ensures Search(s, 0) ==
      Some(DateMatch(s[p..p + dl], s[p + dl + 1..p + dl + 1 + m], s[p + dl + m + 2..p + dl + m + 6]))
  {
    SearchSkipsNonDigits(s, 0, p);
    MatchAtLayout(s, p, dl, m);
  }

  /** What `Layout` says, in the terms the search lemmas use. */
  lemma LayoutFacts(s: string, p: nat, day: string, word: string, year: string)
    requires 1 <= |day| <= 2 && AllDigits(day)
    requires forall k :: 0 <= k < |word| ==> IsAsciiLower(word[k])
    requires |year| == 4 && AllDigits(year)
    requires Layout(s, p, day, word, year)
    ensures var dl, m := |day|, |word|;
      DigitsAt(s, p, dl) && DigitsAt(s, p + dl + m + 2, 4) &&
      (forall k :: p + dl + 1 <= k < p + dl + 1 + m ==> IsAsciiLower(s[k]))
  {
    var dl, m := |day|, |word|;
    assert DigitsAt(s, p, dl) by {
      forall k | p <= k < p + dl ensures IsDigit(s[k]) { assert s[p + (k - p)] == day[k - p]; }
    }
    assert DigitsAt(s, p + dl + m + 2, 4) by {
      forall k | p + dl + m + 2 <= k < p + dl + m + 6 ensures IsDigit(s[k]) {
        assert s[p + dl + m + 2 + (k - p - dl - m - 2)] == year[k - p - dl - m - 2];
      }
    }
    forall k | p + dl + 1 <= k < p + dl + 1 + m ensures IsAsciiLower(s[k]) {
      assert s[p + dl + 1 + (k - p - dl - 1)] == word[k - p - dl - 1];
    }
  }

  /** The slices `Layout` describes. */
  lemma LayoutSlices(s: string, p: nat, day: string, word: string, year: string)
    requires |year| == 4 && Layout(s, p, day, word, year)
    ensures var dl, m := |day|, |word|;
      s[p..p + dl] == day && s[p + dl + 1..p + dl + 1 + m] == word &&
      s[p + dl + m + 2..p + dl + m + 6] == year
  {
    var dl, m := |day|, |word|;
    assert s[p..p + dl] == day by {
      forall k | 0 <= k < dl ensures s[p..p + dl][k] == day[k] { }
    }
    assert s[p + dl + 1..p + dl + 1 + m] == word by {
      forall k | 0 <= k < m ensures s[p + dl + 1..p + dl + 1 + m][k] == word[k] { }
    }
    assert s[p + dl + m + 2..p + dl + m + 6] == year by {
      forall k | 0 <= k < 4 ensures s[p + dl + m + 2..p + dl + m + 6][k] == year[k] { }
    }
  }

  /** The search finds `day`, `word` and `year` when they sit in `s` as
      `Layout` places them and nothing before them is a digit. */
  lemma LayoutMatch(s: string, p: nat, day: string, word: string, year: string)
    requires 1 <= |day| <= 2 && AllDigits(day)
    requires word != [] && forall k :: 0 <= k < |word| ==> IsAsciiLower(word[k])
    requires |year| == 4 && AllDigits(year)
    requires Layout(s, p, day, word, year)
    requires forall k :: 0 <= k < p ==> !IsDigit(s[k])
    ensures Search(s, 0) == Some(DateMatch(day, word, year))
  {
    LayoutFacts(s, p, day, word, year);
    LayoutSlices(s, p, day, word, year);
    SearchLayout(s, p, |day|, |word|);
  }

  /** The match found in `prefix + day + " " + word + " " + year + suffix`
      when the prefix holds no digit. */
  lemma MatchInContext(s: string, prefix: string, day: string, word: string, year: string, suffix: string)
    requires s == prefix + (day + " " + word + " " + year + suffix)
    requires forall k :: 0 <= k < |prefix| ==> !IsDigit(prefix[k])
    requires 1 <= |day| <= 2 && AllDigits(day)
    requires word != [] && forall k :: 0 <= k < |word| ==> IsAsciiLower(word[k])
    requires |year| == 4 && AllDigits(year)
    ensures Search(s, 0) == Some(DateMatch(day, word, year))
  {
    ContextLayout(s, prefix, day, word, year, suffix);
    assert forall k :: 0 <= k < |prefix| ==> !IsDigit(s[k]);
    LayoutMatch(s, |prefix|, day, word, year);
  }

  /** Characters allowed around the date in `ParseInContext`. */
  predicate Plain(c: char) {
    IsDigit(c) || c == ' ' || IsAsciiLower(c)
  }

  predicate AllPlain(s: string) {
    forall k :: 0 <= k < |s| ==> Plain(s[k])
  }

  /** The text `prefix + day + " " + word + " " + year + suffix` is plain
      and has no space at either end. */
  lemma ContextIsPlain(s: string, prefix: string, day: string, word: string, year: string, suffix: string)
    requires s == prefix + (day + " " + word + " " + year + suffix)
    requires forall k :: 0 <= k < |prefix| ==> prefix[k] == ' ' || IsAsciiLower(prefix[k])
    requires prefix == [] || prefix[0] != ' '
    requires 1 <= |day| <= 2 && AllDigits(day)
    requires forall k :: 0 <= k < |word| ==> IsAsciiLower(word[k])
    requires |year| == 4 && AllDigits(year)
    requires forall k :: 0 <= k < |suffix| ==> Plain(suffix[k])
    requires suffix == [] || suffix[|suffix| - 1] != ' '
    ensures AllPlain(s) && s != [] && s[0] != ' ' && s[|s| - 1] != ' '
  {
    var p, dl, m := |prefix|, |day|, |word|;
    ContextLayout(s, prefix, day, word, year, suffix);
    forall k | 0 <= k < |s| ensures Plain(s[k]) {
      if k < p { assert s[k] == prefix[k]; }
      else if k < p + dl { assert s[p + (k - p)] == day[k - p]; }
      else if k == p + dl || k == p + dl + 1 + m { }
      else if k < p + dl + 1 + m { assert s[p + dl + 1 + (k - p - dl - 1)] == word[k - p - dl - 1]; }
      else if k < p + dl + m + 6 { assert s[p + dl + m + 2 + (k - p - dl - m - 2)] == year[k - p - dl - m - 2]; }
      else { assert s[p + dl + m + 6 + (k - p - dl - m - 6)] == suffix[k - p - dl - m - 6]; }
    }
    if p == 0 { assert s[0] == s[p + 0] == day[0]; } else { assert s[0] == prefix[0]; }
    if suffix == [] { assert s[|s| - 1] == s[p + dl + m + 2 + 3] == year[3]; }
    else { assert s[|s| - 1] == s[p + dl + m + 6 + (|suffix| - 1)] == suffix[|suffix| - 1]; }
  }

  /** Text made of digits, spaces and lower-case letters that neither starts
      nor ends with a space is left alone by lower-casing and trimming. */
  lemma PlainTextKept(s: string, lookup: string -> Option<string>)
    requires AllPlain(s)
    requires s == [] || (s[0] != ' ' && s[|s| - 1] != ' ')
    ensures ParseWith(s, lookup) == ParseNormalized(s, lookup)
  {
    assert Lower(s) == s;
    TrimNoop(s);
  }

  /** The Italian pattern inside surrounding text: the first match decides,
      the day is zero-padded but not range-checked, and a month word that
      the lookup does not know gives no date. The text here is already in
      lower case and has no white space at either end. */
  lemma ParseInContext(prefix: string, day: string, word: string, year: string, suffix: string,
                       lookup: string -> Option<string>)
    requires forall k :: 0 <= k < |prefix| ==> prefix[k] == ' ' || IsAsciiLower(prefix[k])
    requires prefix == [] || prefix[0] != ' '
    requires 1 <= |day| <= 2 && AllDigits(day)
    requires word != [] && forall k :: 0 <= k < |word| ==> IsAsciiLower(word[k])
    requires |year| == 4 && AllDigits(year)
    requires forall k :: 0 <= k < |suffix| ==> Plain(suffix[k])
    requires suffix == [] || suffix[|suffix| - 1] != ' '
    ensures ParseWith(prefix + (day + " " + word + " " + year + suffix), lookup) ==
      match lookup(word)
      case None => None
      case Some(mm) => Some(DateText(DateMatch(day, word, year), mm))
  {
    var s := prefix + (day + " " + word + " " + year + suffix);
    ContextIsPlain(s, prefix, day, word, year, suffix);
    PlainTextKept(s, lookup);
    MatchInContext(s, prefix, day, word, year, suffix);
    ParseFound(s, DateMatch(day, word, year), lookup);
  }

  /** Once the search over the normalised text has found `m`, the result depends only on the lookup of the month word. */
  lemma ParseFound(s: string, m: DateMatch, lookup: string -> Option<string>)
    requires Search(s, 0) == Some(m)
    ensures WellFormed(m)
    ensures ParseNormalized(s, lookup) ==
      match lookup(m.month)
      case None => None
      case Some(mm) => Some(DateText(m, mm))
  {
  }

  /** The as-written lookup differs from the table lookup only on the word
      `constructor`, so the two parses agree on every text whose first match
      has another month word. */
  lemma AsWrittenAgreesElsewhere(str: string)
    requires var m := Search(Trim(Lower(str)), 0); m.None? || m.value.month != "constructor"
    ensures ParseItalianDateAsWritten(str) == ParseItalianDate(str)
  {
  }

  /** A text without digits is never an Italian date. */
  lemma {:induction false} NoDigitNoMatch(s: string)
    requires forall k :: 0 <= k < |s| ==> !IsDigit(s[k])
    ensures Search(s, 0) == None
  {
    SearchSkipsNonDigits(s, 0, |s|);
    NoMatchAtNonDigit(s, |s|);
  }

  /** A value without digits is neither an Italian date nor in YYYY-MM-DD
      form, so the host parser alone decides; when it fails too, the field
      is left alone. */
  lemma NoDigitGoesToHost(value: string, hostParse: string -> Option<string>)
    requires forall k :: 0 <= k < |value| ==> !IsDigit(value[k])
    ensures NormalizeDate(value, hostParse) == hostParse(value)
  {
    var l := Lower(value);
    assert forall k :: 0 <= k < |l| ==> !IsDigit(l[k]);
    NoDigitNoMatch(Trim(l));
    assert |value| == 10 ==> !IsIsoDate(value) by {
      if |value| == 10 { assert value[0..4][0] == value[0]; }
    }
  }

  /** Every entry of the month table is understood anywhere in a lower-case
      text without digits before it: `<day> <word> <year>` becomes
      `<year>-<number>-<padded day>`. */
  lemma TableDateInText(prefix: string, day: string, i: nat, year: string, suffix: string)
    requires forall k :: 0 <= k < |prefix| ==> prefix[k] == ' ' || IsAsciiLower(prefix[k])
    requires prefix == [] || prefix[0] != ' '
    requires 1 <= |day| <= 2 && AllDigits(day)
    requires i < |MonthTable| && forall j :: 0 <= j < i ==> MonthTable[j].0 != MonthTable[i].0
    requires |year| == 4 && AllDigits(year)
    requires forall k :: 0 <= k < |suffix| ==> Plain(suffix[k])
    requires suffix == [] || suffix[|suffix| - 1] != ' '
    ensures ParseItalianDate(prefix + (day + " " + MonthTable[i].0 + " " + year + suffix)) ==
      Some(year + "-" + MonthTable[i].1 + "-" + PadDay(day))
  {
    MonthTableWords();
    LookupAt(MonthTable, MonthTable[i].0, i);
    ParseInContext(prefix, day, MonthTable[i].0, year, suffix, MonthNumber);
  }

  /** A word outside the table gives no date in a lower-case text of the
      `ParseInContext` shape; as written, the same holds for every such word
      except `constructor`. */
  lemma UnknownWordInText(prefix: string, day: string, word: string, year: string, suffix: string)
    requires forall k :: 0 <= k < |prefix| ==> prefix[k] == ' ' || IsAsciiLower(prefix[k])
    requires prefix == [] || prefix[0] != ' '
    requires 1 <= |day| <= 2 && AllDigits(day)
    requires word != [] && forall k :: 0 <= k < |word| ==> IsAsciiLower(word[k])
    requires forall j :: 0 <= j < |MonthTable| ==> MonthTable[j].0 != word
    requires |year| == 4 && AllDigits(year)
    requires forall k :: 0 <= k < |suffix| ==> Plain(suffix[k])
    requires suffix == [] || suffix[|suffix| - 1] != ' '
    ensures ParseItalianDate(prefix + (day + " " + word + " " + year + suffix)) == None
    ensures word != "constructor" ==>
      ParseItalianDateAsWritten(prefix + (day + " " + word + " " + year + suffix)) == None
  {
    ParseInContext(prefix, day, word, year, suffix, MonthNumber);
    ParseInContext(prefix, day, word, year, suffix, MonthPropertyAsWritten);
  }

  /** `TableDateInText` for a given text and date. */
  lemma TableDate(prefix: string, day: string, i: nat, year: string, suffix: string, text: string, date: string)
    requires forall k :: 0 <= k < |prefix| ==> prefix[k] == ' ' || IsAsciiLower(prefix[k])
    requires prefix == [] || prefix[0] != ' '
    requires 1 <= |day| <= 2 && AllDigits(day)
    requires i < |MonthTable| && forall j :: 0 <= j < i ==> MonthTable[j].0 != MonthTable[i].0
    requires |year| == 4 && AllDigits(year)
    requires forall k :: 0 <= k < |suffix| ==> Plain(suffix[k])
    requires suffix == [] || suffix[|suffix| - 1] != ' '
    requires text == prefix + (day + " " + MonthTable[i].0 + " " + year + suffix)
    requires date == year + "-" + MonthTable[i].1 + "-" + PadDay(day)
    ensures ParseItalianDate(text) == Some(date)
  {
    TableDateInText(prefix, day, i, year, suffix);
  }

  // ----- examples -----

  /** "1 maggio 2000": a one-digit day is padded. */
  lemma ExampleFirstOfMay(day: string, year: string)
    requires day == "1" && year == "2000"
    ensures ParseItalianDate(day + " maggio " + year) == Some("2000-05-01")
  {
    TableDate("", day, 4, year, "", day + " maggio " + year, "2000-05-01");
  }

  /** "25 dic 1999": the abbreviations are in the table too. */
  lemma ExampleAbbreviation(day: string, year: string)
    requires day == "25" && year == "1999"
    ensures ParseItalianDate(day + " dic " + year) == Some("1999-12-25")
  {
    TableDate("", day, 23, year, "", day + " dic " + year, "1999-12-25");
  }

  /** The pattern is not anchored: a date inside a sentence is found. */
  lemma ExampleUnanchored(prefix: string, day: string, year: string, suffix: string)
    requires prefix == "nato il " && day == "7" && year == "1985" && suffix == " a roma"
    ensures ParseItalianDate(prefix + day + " luglio " + year + suffix) == Some("1985-07-07")
  {
    TableDate(prefix, day, 6, year, suffix, prefix + day + " luglio " + year + suffix, "1985-07-07");
  }

  /** The day is not range-checked. */
  lemma ExampleDayNotChecked(day: string, year: string)
    requires day == "99" && year == "2000"
    ensures ParseItalianDate(day + " maggio " + year) == Some("2000-05-99")
  {
    TableDate("", day, 4, year, "", day + " maggio " + year, "2000-05-99");
  }

  /** Only the first match counts: an unknown month word there gives no
      date even though a valid date follows. */
  lemma ExampleFirstMatchOnly(day: string, word: string, year: string, suffix: string)
    requires day == "1" && word == "mai" && year == "2000" && suffix == " o 2 maggio 2001"
    ensures ParseItalianDate(day + " " + word + " " + year + suffix) == None
  {
    UnknownWordInText("", day, word, year, suffix);
    assert "" + (day + " " + word + " " + year + suffix) == day + " " + word + " " + year + suffix;
  }

  // ----- the month word `constructor` -----

  /** As written, the month lookup on a plain object finds the inherited
      `constructor` property for `<day> constructor <year>`, and the date
      becomes the text of the Object function, which is not a date. */
  lemma ConstructorMonthAsWritten(day: string, year: string, text: string, date: string)
    requires 1 <= |day| <= 2 && AllDigits(day)
    requires |year| == 4 && AllDigits(year)
    requires text == day + " constructor " + year
    requires date == year + "-" + ObjectFunctionText + "-" + PadDay(day)
    ensures ParseItalianDateAsWritten(text) == Some(date)
    ensures !IsIsoDate(date)
  {
    ConstructorParse(day, year, text);
    ConstructorTemplate(day, year, date);
  }

  /** The as-written parse of `<day> constructor <year>`, before the
      template is expanded. */
  lemma ConstructorParse(day: string, year: string, text: string)
    requires 1 <= |day| <= 2 && AllDigits(day)
    requires |year| == 4 && AllDigits(year)
    requires text == day + " constructor " + year
    ensures ParseItalianDateAsWritten(text) ==
      Some(DateText(DateMatch(day, "constructor", year), ObjectFunctionText))
  {
    var word := "constructor";
    assert text == "" + (day + " " + word + " " + year + "");
    ParseInContext("", day, word, year, "", MonthPropertyAsWritten);
  }

  /** The template filled with the Object function's text. */
  lemma ConstructorTemplate(day: string, year: string, date: string)
    requires 1 <= |day| <= 2 && AllDigits(day)
    requires |year| == 4 && AllDigits(year)
    requires date == year + "-" + ObjectFunctionText + "-" + PadDay(day)
    ensures DateText(DateMatch(day, "constructor", year), ObjectFunctionText) == date
    ensures !IsIsoDate(date)
  {
  }

  /** With the lookup restricted to the table's own entries, the same text
      gives no date. */
  lemma ConstructorMonthCorrected(day: string, year: string, text: string)
    requires 1 <= |day| <= 2 && AllDigits(day)
    requires |year| == 4 && AllDigits(year)
    requires text == day + " constructor " + year
    ensures ParseItalianDate(text) == None
  {
    var word := "constructor";
    MonthTableWords();
    assert |word| == 11;
    assert text == "" + (day + " " + word + " " + year + "");
    UnknownWordInText("", day, word, year, "");
  }
}
