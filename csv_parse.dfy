/** The three helpers of the CSV importer (src/app/actions/import.ts): the
    slug a placeholder venue's email is made from, the strict DD/MM/YYYY HH:MM
    date parser, and the quote-aware splitter for one CSV line. */
module CsvParse {
  import opened Common
  import opened DateTime

  // ---------------------------------------------------------------------
  // generateSlug
  // ---------------------------------------------------------------------

  /** The characters `[a-z0-9]` keeps. */
  predicate IsSlugChar(c: char) {
    'a' <= c <= 'z' || '0' <= c <= '9'
  }

  /** Only letters, digits and dashes. */
  predicate SlugAlphabet(s: string) {
    forall i :: 0 <= i < |s| ==> IsSlugChar(s[i]) || s[i] == '-'
  }

  /** No two dashes in a row. */
  predicate SingleDashes(s: string) {
    forall i :: 0 <= i < |s| - 1 ==> s[i] != '-' || s[i + 1] != '-'
  }

  /** The letters and digits of a string, in order. */
  function Alnums(s: string): string {
    if s == [] then []
    else (if IsSlugChar(s[0]) then [s[0]] else []) + Alnums(s[1..])
  }

  /** Drops the run of non-`[a-z0-9]` characters at the front of `s`. */
  function DropRun(s: string): (r: string)
    ensures |r| <= |s| && r == s[|s| - |r|..]
    ensures r == [] || IsSlugChar(r[0])
    ensures Alnums(r) == Alnums(s)
    ensures s != [] && !IsSlugChar(s[0]) ==> |r| < |s|
  {
    if s != [] && !IsSlugChar(s[0]) then
      var r := DropRun(s[1..]);
      assert s[1..][|s| - 1 - |r|..] == s[|s| - |r|..];
      assert Alnums(s) == Alnums(s[1..]);
      r
    else s
  }

  /** `.replace(/[^a-z0-9]+/g, '-')`: every maximal run of other characters
      becomes a single dash. */
  function Dasherize(s: string): (r: string)
    ensures SlugAlphabet(r)
    ensures SingleDashes(r)
    ensures r != [] && r[0] == '-' <==> s != [] && !IsSlugChar(s[0])
    ensures r == [] <==> s == []
    ensures Alnums(r) == Alnums(s)
    decreases |s|
  {
    if s == [] then []
    else if IsSlugChar(s[0]) then [s[0]] + Dasherize(s[1..])
    else ['-'] + Dasherize(DropRun(s))
  }

  /** `.replace(/(^-|-$)+/g, '')` on a string with no two dashes in a row: at
      most one dash goes from each end. */
  function StripDashes(s: string): (r: string)
    ensures forall i :: 0 <= i < |r| ==> r[i] in s
  {
    var a := if s != [] && s[0] == '-' then s[1..] else s;
    if a != [] && a[|a| - 1] == '-' then a[..|a| - 1] else a
  }

  /** `generateSlug(name)`: lower-case letters, digits and single dashes, no
      dash at either end, and the same letters and digits as the lower-cased
      name, in the same order. */
  function GenerateSlug(name: string): (r: string)
    ensures SlugAlphabet(r)
    ensures SingleDashes(r)
    ensures r == [] || (r[0] != '-' && r[|r| - 1] != '-')
    ensures Alnums(r) == Alnums(Lower(name))
  {
    var d := Dasherize(Lower(name));
    var r := StripDashes(d);
    AlnumsWithoutDashes(d);
    r
  }

  /** Dropping a leading and a trailing dash keeps the letters and digits; it
      also leaves no dash at either end when there were no two in a row. */
  lemma AlnumsWithoutDashes(d: string)
    requires SlugAlphabet(d)
    requires SingleDashes(d)
    ensures Alnums(StripDashes(d)) == Alnums(d)
    ensures StripDashes(d) == [] || (StripDashes(d)[0] != '-' && StripDashes(d)[|StripDashes(d)| - 1] != '-')
  {
    var a := if d != [] && d[0] == '-' then d[1..] else d;
    assert Alnums(a) == Alnums(d);
    if a != [] && a[|a| - 1] == '-' {
      AlnumsDropLastDash(a);
    }
  }

  lemma {:induction false} AlnumsDropLastDash(a: string)
    requires a != [] && a[|a| - 1] == '-'
    ensures Alnums(a[..|a| - 1]) == Alnums(a)
    decreases |a|
  {
    if |a| > 1 {
      AlnumsDropLastDash(a[1..]);
      assert a[1..][..|a| - 2] == a[..|a| - 1][1..];
    }
  }

  /** A string of letters, digits and single dashes is its own dasherized form. */
  lemma {:induction false} DasherizeFixed(s: string)
    requires SlugAlphabet(s)
    requires SingleDashes(s)
    ensures Dasherize(s) == s
    decreases |s|
  {
    if s != [] {
      TailShaped(s);
      DasherizeFixed(s[1..]);
      DasherizeFixedStep(s[0], s[1..]);
      assert [s[0]] + s[1..] == s;
    }
  }

  lemma TailShaped(s: string)
    requires s != [] && SlugAlphabet(s) && SingleDashes(s)
    ensures SlugAlphabet(s[1..]) && SingleDashes(s[1..])
    ensures IsSlugChar(s[0]) || s[0] == '-'
    ensures s[0] == '-' ==> s[1..] == [] || IsSlugChar(s[1..][0])
  {
    var t := s[1..];
    forall i | 0 <= i < |t| ensures IsSlugChar(t[i]) || t[i] == '-' {
      assert t[i] == s[i + 1];
    }
    forall i | 0 <= i < |t| - 1 ensures t[i] != '-' || t[i + 1] != '-' {
      assert t[i] == s[i + 1] && t[i + 1] == s[i + 2];
    }
    if t != [] {
      assert t[0] == s[1];
    }
  }

  lemma DasherizeFixedStep(c: char, t: string)
    requires IsSlugChar(c) || c == '-'
    requires c == '-' ==> t == [] || IsSlugChar(t[0])
    requires Dasherize(t) == t
    ensures Dasherize([c] + t) == [c] + t
  {
    if IsSlugChar(c) {
      DasherizeSlugChar(c, t);
    } else {
      DasherizeOther([c], t);
    }
  }

  /** Slugging a slug changes nothing. */
  lemma SlugIdempotent(name: string)
    ensures GenerateSlug(GenerateSlug(name)) == GenerateSlug(name)
  {
    var r := GenerateSlug(name);
    assert Lower(r) == r;
    DasherizeFixed(r);
  }

  lemma DasherizeSlugChar(c: char, rest: string)
    requires IsSlugChar(c)
    ensures Dasherize([c] + rest) == [c] + Dasherize(rest)
  {
    assert ([c] + rest)[1..] == rest;
  }

  /** A run of other characters followed by a letter, a digit or the end. */
  lemma DasherizeOther(run: string, rest: string)
    requires run != [] && forall i :: 0 <= i < |run| ==> !IsSlugChar(run[i])
    requires rest == [] || IsSlugChar(rest[0])
    ensures Dasherize(run + rest) == ['-'] + Dasherize(rest)
  {
    DropRunOf(run, rest);
  }

  lemma {:induction false} DropRunOf(run: string, rest: string)
    requires forall i :: 0 <= i < |run| ==> !IsSlugChar(run[i])
    requires rest == [] || IsSlugChar(rest[0])
    ensures DropRun(run + rest) == rest
    decreases |run|
  {
    if run != [] {
      assert (run + rest)[1..] == run[1..] + rest;
      DropRunOf(run[1..], rest);
    } else {
      assert run + rest == rest;
    }
  }

  // ---------------------------------------------------------------------
  // parseStrictDate
  // ---------------------------------------------------------------------

  /** `parts.map(Number)`. */
  function Numbers(parts: seq<string>): (ns: seq<JsNumber>)
    ensures |ns| == |parts|
    ensures forall i :: 0 <= i < |parts| ==> ns[i] == ToNumber(parts[i])
  {
    seq(|parts|, i requires 0 <= i < |parts| => ToNumber(parts[i]))
  }

  /** `ns[i]`: undefined past the end. */
  function NumberAt(ns: seq<JsNumber>, i: nat): (n: Option<JsNumber>)
    ensures n.Some? <==> i < |ns|
  {
    if i < |ns| then Some(ns[i]) else None
  }

  /** `!x` on a number that may be undefined: undefined, NaN and 0 are falsy. */
  predicate Falsy(x: Option<JsNumber>) {
    x.None? || x.value.NaN? || x.value.value == 0
  }

  /** `parseStrictDate(dateStr, timeStr)`: day, month and year from the
      slash-separated date, hours and minutes from the colon-separated time,
      then `new Date(year, month - 1, day, hours, minutes)`. A missing, zero or
      non-numeric day, month or year, or a time without a colon, gives none;
      so does a date JavaScript cannot represent. */
  function ParseStrictDate(dateStr: string, timeStr: string): (r: Option<Instant>)
    ensures multiset(Trim(dateStr))['/'] < 2 ==> r.None?
    ensures multiset(Trim(timeStr))[':'] == 0 ==> r.None?
    ensures r.Some? ==> -MaxTime <= r.value <= MaxTime
  {
    SplitCount(Trim(dateStr), '/');
    SplitCount(Trim(timeStr), ':');
    DateFromNumbers(Numbers(Split(Trim(dateStr), '/')), Numbers(Split(Trim(timeStr), ':')))
  }

  /** The rest of `parseStrictDate` once both strings are split and read as numbers. */
  function DateFromNumbers(d: seq<JsNumber>, t: seq<JsNumber>): (r: Option<Instant>)
    ensures |d| < 3 || |t| < 2 ==> r.None?
    ensures Falsy(NumberAt(d, 0)) || Falsy(NumberAt(d, 1)) || Falsy(NumberAt(d, 2)) ==> r.None?
    ensures r.Some? ==> d[0].Num? && d[1].Num? && d[2].Num? && t[0].Num? && t[1].Num?
    ensures r.Some? ==> -MaxTime <= r.value <= MaxTime
  {
    var day, month, year := NumberAt(d, 0), NumberAt(d, 1), NumberAt(d, 2);
    var hours, minutes := NumberAt(t, 0), NumberAt(t, 1);
    if Falsy(day) || Falsy(month) || Falsy(year) || hours.None? || minutes.None? then None
    else LocalDate(year.value, Num(month.value.value - 1), day.value, hours.value, minutes.value)
  }

  /** A non-empty run of decimal digits. */
  predicate IsNumeral(s: string) {
    s != [] && forall i :: 0 <= i < |s| ==> IsDigit(s[i])
  }

  /** `Number` reads a run of digits as its decimal value. */
  lemma ToNumberOfNumeral(s: string)
    requires IsNumeral(s)
    ensures ToNumber(s) == Num(DigitsValue(s))
  {
    assert IsTrimmed(s);
    TrimOfTrimmed(s);
    assert s[0] != '-' && s[0] != '+';
  }

  lemma NoSeparatorInNumeral(s: string, sep: char)
    requires IsNumeral(s) && !IsDigit(sep)
    ensures sep !in s
  {
  }

  /** Splitting three separator-free strings joined by a separator gives them back. */
  lemma SplitThree(a: string, b: string, c: string, sep: char)
    requires sep !in a && sep !in b && sep !in c
    ensures Split(a + [sep] + b + [sep] + c, sep) == [a, b, c]
  {
    var parts := [a, b, c];
    assert parts[1..] == [b, c];
    assert parts[1..][1..] == [c];
    assert Join([c], sep) == c;
    assert Join([b, c], sep) == b + [sep] + c;
    assert Join(parts, sep) == a + [sep] + (b + [sep] + c);
    assert a + [sep] + (b + [sep] + c) == a + [sep] + b + [sep] + c;
    SplitJoin(parts, sep);
  }

  lemma SplitTwo(a: string, b: string, sep: char)
    requires sep !in a && sep !in b
    ensures Split(a + [sep] + b, sep) == [a, b]
  {
    var parts := [a, b];
    assert parts[1..] == [b];
    SplitJoin(parts, sep);
  }

  /** A date `D/M/Y` of numerals splits into its three numerals. */
  lemma SplitDateNumerals(ds: string, ms: string, ys: string)
    requires IsNumeral(ds) && IsNumeral(ms) && IsNumeral(ys)
    ensures Split(Trim(ds + "/" + ms + "/" + ys), '/') == [ds, ms, ys]
  {
    var date := ds + "/" + ms + "/" + ys;
    assert date[0] == ds[0] && date[|date| - 1] == ys[|ys| - 1];
    NumeralEndsTrimmed(date, ds, ys);
    NoSeparatorInNumeral(ds, '/');
    NoSeparatorInNumeral(ms, '/');
    NoSeparatorInNumeral(ys, '/');
    SplitThree(ds, ms, ys, '/');
    SplitTrimmed(date, '/', [ds, ms, ys]);
  }

  /** A time `H:M` of numerals splits into its two numerals. */
  lemma SplitTimeNumerals(hs: string, mins: string)
    requires IsNumeral(hs) && IsNumeral(mins)
    ensures Split(Trim(hs + ":" + mins), ':') == [hs, mins]
  {
    var time := hs + ":" + mins;
    assert time[0] == hs[0] && time[|time| - 1] == mins[|mins| - 1];
    NumeralEndsTrimmed(time, hs, mins);
    NoSeparatorInNumeral(hs, ':');
    NoSeparatorInNumeral(mins, ':');
    SplitTwo(hs, mins, ':');
    SplitTrimmed(time, ':', [hs, mins]);
  }

  /** A string that starts like one numeral and ends like another has no
      white space to trim. */
  lemma NumeralEndsTrimmed(s: string, first: string, last: string)
    requires IsNumeral(first) && IsNumeral(last)
    requires s != [] && s[0] == first[0] && s[|s| - 1] == last[|last| - 1]
    ensures IsTrimmed(s)
  {
    assert IsDigit(first[0]) && IsDigit(last[|last| - 1]);
  }

  lemma SplitTrimmed(s: string, sep: char, parts: seq<string>)
    requires IsTrimmed(s) && Split(s, sep) == parts
    ensures Split(Trim(s), sep) == parts
  {
    TrimOfTrimmed(s);
  }

  lemma ReadThree(a: string, b: string, c: string)
    requires IsNumeral(a) && IsNumeral(b) && IsNumeral(c)
    ensures Numbers([a, b, c]) == [Num(DigitsValue(a)), Num(DigitsValue(b)), Num(DigitsValue(c))]
  {
    ToNumberOfNumeral(a);
    ToNumberOfNumeral(b);
    ToNumberOfNumeral(c);
    var parts := [a, b, c];
    var ns := Numbers(parts);
    assert ns[0] == ToNumber(parts[0]) && ns[1] == ToNumber(parts[1]) && ns[2] == ToNumber(parts[2]);
    ListOfThree(ns, Num(DigitsValue(a)), Num(DigitsValue(b)), Num(DigitsValue(c)));
  }

  lemma ListOfThree<T>(s: seq<T>, x: T, y: T, z: T)
    requires |s| == 3 && s[0] == x && s[1] == y && s[2] == z
    ensures s == [x, y, z]
  {
  }

  lemma ReadTwo(a: string, b: string)
    requires IsNumeral(a) && IsNumeral(b)
    ensures Numbers([a, b]) == [Num(DigitsValue(a)), Num(DigitsValue(b))]
  {
    ToNumberOfNumeral(a);
    ToNumberOfNumeral(b);
    var parts := [a, b];
    var ns := Numbers(parts);
    assert ns[0] == ToNumber(parts[0]) && ns[1] == ToNumber(parts[1]);
    ListOfTwo(ns, Num(DigitsValue(a)), Num(DigitsValue(b)));
  }

  lemma ListOfTwo<T>(s: seq<T>, x: T, y: T)
    requires |s| == 2 && s[0] == x && s[1] == y
    ensures s == [x, y]
  {
  }

  lemma DateFromLiterals(day: int, month: int, year: int, hours: int, minutes: int)
    requires day != 0 && month != 0 && year != 0
    ensures DateFromNumbers([Num(day), Num(month), Num(year)], [Num(hours), Num(minutes)])
         == LocalDate(Num(year), Num(month - 1), Num(day), Num(hours), Num(minutes))
  {
  }

  /** A date and a time written with digits only, such as "05/03/2024" and
      "19:30", parse to `new Date(year, month - 1, day, hours, minutes)` of
      the numbers they spell, leading zeros and all, as long as day, month
      and year are not zero. */
  lemma ParseNumerals(ds: string, ms: string, ys: string, hs: string, mins: string)
    requires IsNumeral(ds) && IsNumeral(ms) && IsNumeral(ys) && IsNumeral(hs) && IsNumeral(mins)
    requires DigitsValue(ds) != 0 && DigitsValue(ms) != 0 && DigitsValue(ys) != 0
    ensures ParseStrictDate(ds + "/" + ms + "/" + ys, hs + ":" + mins)
         == LocalDate(Num(DigitsValue(ys)), Num(DigitsValue(ms) - 1), Num(DigitsValue(ds)),
                      Num(DigitsValue(hs)), Num(DigitsValue(mins)))
  {
    SplitDateNumerals(ds, ms, ys);
    SplitTimeNumerals(hs, mins);
    ParsedAs(ds + "/" + ms + "/" + ys, hs + ":" + mins, ds, ms, ys, hs, mins);
  }

  /** Once date and time split into numerals, the parse is the local date
      their values make. */
  lemma ParsedAs(date: string, time: string, ds: string, ms: string, ys: string, hs: string, mins: string)
    requires IsNumeral(ds) && IsNumeral(ms) && IsNumeral(ys) && IsNumeral(hs) && IsNumeral(mins)
    requires DigitsValue(ds) != 0 && DigitsValue(ms) != 0 && DigitsValue(ys) != 0
    requires Split(Trim(date), '/') == [ds, ms, ys] && Split(Trim(time), ':') == [hs, mins]
    ensures ParseStrictDate(date, time)
         == LocalDate(Num(DigitsValue(ys)), Num(DigitsValue(ms) - 1), Num(DigitsValue(ds)),
                      Num(DigitsValue(hs)), Num(DigitsValue(mins)))
  {
    var day, month, year := DigitsValue(ds), DigitsValue(ms), DigitsValue(ys);
    var hours, minutes := DigitsValue(hs), DigitsValue(mins);
    ReadThree(ds, ms, ys);
    ReadTwo(hs, mins);
    ParseStrictDateOfNumbers(date, time, [Num(day), Num(month), Num(year)], [Num(hours), Num(minutes)]);
    DateFromLiterals(day, month, year, hours, minutes);
  }

  lemma ParseStrictDateOfNumbers(dateStr: string, timeStr: string, nd: seq<JsNumber>, nt: seq<JsNumber>)
    requires Numbers(Split(Trim(dateStr), '/')) == nd
    requires Numbers(Split(Trim(timeStr), ':')) == nt
    ensures ParseStrictDate(dateStr, timeStr) == DateFromNumbers(nd, nt)
  {
  }

  /** A date whose day, month or year `Number` cannot read does not parse. */
  lemma NonNumericPartRejected(dateStr: string, timeStr: string, i: nat)
    requires var parts := Split(Trim(dateStr), '/'); i < 3 && i < |parts| && ToNumber(parts[i]).NaN?
    ensures ParseStrictDate(dateStr, timeStr).None?
  {
    var parts := Split(Trim(dateStr), '/');
    var nd, nt := Numbers(parts), Numbers(Split(Trim(timeStr), ':'));
    assert nd[i].NaN?;
    NaNPartRejected(nd, nt, i);
    ParseStrictDateOfNumbers(dateStr, timeStr, nd, nt);
  }

  lemma NaNPartRejected(nd: seq<JsNumber>, nt: seq<JsNumber>, i: nat)
    requires i < 3 && i < |nd| && nd[i].NaN?
    ensures DateFromNumbers(nd, nt).None?
  {
    assert Falsy(NumberAt(nd, i));
  }

  /** A date with any zero among day, month and year does not parse. */
  lemma ZeroFieldRejected(ds: string, ms: string, ys: string, hs: string, mins: string)
    requires IsNumeral(ds) && IsNumeral(ms) && IsNumeral(ys) && IsNumeral(hs) && IsNumeral(mins)
    requires DigitsValue(ds) == 0 || DigitsValue(ms) == 0 || DigitsValue(ys) == 0
    ensures ParseStrictDate(ds + "/" + ms + "/" + ys, hs + ":" + mins).None?
  {
    SplitDateNumerals(ds, ms, ys);
    SplitTimeNumerals(hs, mins);
    RejectedAs(ds + "/" + ms + "/" + ys, hs + ":" + mins, ds, ms, ys, hs, mins);
  }

  /** Once date and time split into numerals, a zero day, month or year
      rejects the parse. */
  lemma RejectedAs(date: string, time: string, ds: string, ms: string, ys: string, hs: string, mins: string)
    requires IsNumeral(ds) && IsNumeral(ms) && IsNumeral(ys) && IsNumeral(hs) && IsNumeral(mins)
    requires DigitsValue(ds) == 0 || DigitsValue(ms) == 0 || DigitsValue(ys) == 0
    requires Split(Trim(date), '/') == [ds, ms, ys] && Split(Trim(time), ':') == [hs, mins]
    ensures ParseStrictDate(date, time).None?
  {
    var day, month, year := DigitsValue(ds), DigitsValue(ms), DigitsValue(ys);
    var hours, minutes := DigitsValue(hs), DigitsValue(mins);
    ReadThree(ds, ms, ys);
    ReadTwo(hs, mins);
    ParseStrictDateOfNumbers(date, time, [Num(day), Num(month), Num(year)], [Num(hours), Num(minutes)]);
  }

  /** Days are linear in the day of the month. */
  lemma DaysFromCivilShift(y: int, m: int, d: int)
    requires 1 <= m <= 12
    ensures DaysFromCivil(y, m, d) == DaysFromCivil(y, m, 1) + d - 1
  {
  }

  /** `new Date(year, month - 1, day, hours, minutes)` for an in-range month,
      hour and minute and a year of three or more digits is that calendar day
      at that wall-clock time. */
  lemma LocalDateOfCivil(day: int, month: int, year: int, hours: int, minutes: int)
    requires 1 <= day && 1 <= month <= 12 && year >= 100
    requires 0 <= hours < 24 && 0 <= minutes < 60
    ensures var r := LocalDate(Num(year), Num(month - 1), Num(day), Num(hours), Num(minutes));
      r.Some? ==>
        && r.value == DaysFromCivil(year, month, day) * MsPerDay + hours * MsPerHour + minutes * MsPerMinute
        && DayOf(r.value) == DaysFromCivil(year, month, day)
  {
    var k := DaysFromCivil(year, month, day);
    assert MakeDay(year, month - 1, day) == k by {
      assert (month - 1) / 12 == 0 && (month - 1) % 12 == month - 1;
      DaysFromCivilShift(year, month, day);
    }
    var offset := hours * MsPerHour + minutes * MsPerMinute;
    assert 0 <= offset < MsPerDay;
    DayOfMidnightPlus(k, offset);
  }

  /** An offset within the day does not change the day an instant falls on. */
  lemma DayOfMidnightPlus(k: int, offset: int)
    requires 0 <= offset < MsPerDay
    ensures (k * MsPerDay + offset) / MsPerDay == k
  {
  }

  /** A year below 100 is read as 1900 plus that year, as JavaScript's Date
      does: "01/06/24" is the first of June 1924. */
  lemma TwoDigitYear(year: int, month: int, day: int, hours: int, minutes: int)
    requires 0 <= year < 100
    ensures LocalDate(Num(year), Num(month), Num(day), Num(hours), Num(minutes))
         == LocalDate(Num(1900 + year), Num(month), Num(day), Num(hours), Num(minutes))
  {
    assert !(0 <= 1900 + year <= 99);
  }

  // ---------------------------------------------------------------------
  // parseCsvLine
  // ---------------------------------------------------------------------

  /** `.replace(/^"|"$/g, '')`: one quote off each end. */
  function Unquote(s: string): (r: string)
    ensures '"' !in s ==> r == s
  {
    var a := if s != [] && s[0] == '"' then s[1..] else s;
    if a != [] && a[|a| - 1] == '"' then a[..|a| - 1] else a
  }

  /** The value a finished field is pushed as. */
  function Finish(current: string): string {
    Unquote(Trim(current))
  }

  /** The splitter's variables after a prefix of the line. */
  datatype ScanState = ScanState(fields: seq<string>, current: string, inQuotes: bool)

  /** One character of the loop: a quote toggles the quoted state and is
      dropped, a comma outside quotes finishes the current field, and any other
      character is appended to it. */
  function Step(st: ScanState, c: char): ScanState {
    if c == '"' then st.(inQuotes := !st.inQuotes)
    else if c == ',' && !st.inQuotes then ScanState(st.fields + [Finish(st.current)], "", st.inQuotes)
    else st.(current := st.current + [c])
  }

  /** The splitter's state after reading `s`, one step per character. */
  function Scan(s: string): ScanState {
    if s == [] then ScanState([], "", false)
    else Step(Scan(s[..|s| - 1]), s[|s| - 1])
  }

  /** Reading one more character is one more step. */
  lemma ScanSnoc(s: string, c: char)
    ensures Scan(s + [c]) == Step(Scan(s), c)
  {
    assert (s + [c])[..|s|] == s;
  }

  /** What the splitter keeps true: the field being read holds no quote, the
      finished fields are trimmed and quote-free, the quoted state is the
      parity of the quotes read, and each finished field used up a comma. */
  lemma ScanInvariant(s: string)
    ensures '"' !in Scan(s).current
    ensures forall i :: 0 <= i < |Scan(s).fields| ==> CleanField(Scan(s).fields[i])
    ensures Scan(s).inQuotes <==> multiset(s)['"'] % 2 == 1
    ensures |Scan(s).fields| <= multiset(s)[',']
  {
    ScanShape(s);
    ScanParity(s);
    ScanFieldCount(s);
  }

  /** A finished field as the splitter pushes it: trimmed and quote-free. */
  predicate CleanField(f: string) {
    '"' !in f && IsTrimmed(f)
  }

  lemma {:induction false} ScanShape(s: string)
    ensures '"' !in Scan(s).current
    ensures forall i :: 0 <= i < |Scan(s).fields| ==> CleanField(Scan(s).fields[i])
  {
    if s != [] {
      var pre, c := s[..|s| - 1], s[|s| - 1];
      ScanShape(pre);
      var st := Scan(pre);
      assert Scan(s) == Step(st, c);
      if c == ',' && !st.inQuotes {
        FinishedField(st.current);
        PushClean(st.fields, Finish(st.current));
      }
    }
  }

  lemma PushClean(fields: seq<string>, f: string)
    requires forall i :: 0 <= i < |fields| ==> CleanField(fields[i])
    requires CleanField(f)
    ensures forall i :: 0 <= i < |fields + [f]| ==> CleanField((fields + [f])[i])
  {
  }

  /** One more character adds one to its own count and nothing to the others. */
  lemma CountSnoc(pre: string, c: char, x: char)
    ensures multiset(pre + [c])[x] == multiset(pre)[x] + if c == x then 1 else 0
  {
    assert multiset(pre + [c]) == multiset(pre) + multiset{c};
  }

  lemma {:induction false} ScanParity(s: string)
    ensures Scan(s).inQuotes <==> multiset(s)['"'] % 2 == 1
  {
    if s != [] {
      var pre, c := s[..|s| - 1], s[|s| - 1];
      assert s == pre + [c];
      CountSnoc(pre, c, '"');
      ScanParity(pre);
    }
  }

  lemma {:induction false} ScanFieldCount(s: string)
    ensures |Scan(s).fields| <= multiset(s)[',']
  {
    if s != [] {
      var pre, c := s[..|s| - 1], s[|s| - 1];
      assert s == pre + [c];
      CountSnoc(pre, c, ',');
      ScanFieldCount(pre);
    }
  }

  /** The commas of `s` outside double quotes: those preceded by an even
      number of quote characters. */
  function CommasOutside(s: string): (n: nat)
    ensures n <= multiset(s)[',']
  {
    if s == [] then 0
    else
      var pre := s[..|s| - 1];
      assert s == pre + [s[|s| - 1]];
      CommasOutside(pre) + if s[|s| - 1] == ',' && multiset(pre)['"'] % 2 == 0 then 1 else 0
  }

  /** The splitter finishes one field per comma outside quotes. */
  lemma {:induction false} ScanCommas(s: string)
    ensures |Scan(s).fields| == CommasOutside(s)
  {
    if s != [] {
      var pre := s[..|s| - 1];
      ScanCommas(pre);
      ScanParity(pre);
    }
  }

  /** A field built without quotes is pushed trimmed and quote-free: the quote
      removal never has anything to remove. */
  lemma FinishedField(current: string)
    requires '"' !in current
    ensures Finish(current) == Trim(current)
    ensures '"' !in Finish(current) && IsTrimmed(Finish(current))
  {
    TrimChars(current);
    TrimIsTrimmed(current);
    assert multiset(Trim(current))['"'] == 0 by {
      assert multiset(current)['"'] == 0;
    }
  }

  /** `parseCsvLine(line)`: the fields of the line, each trimmed, without
      quotes, one more than the commas outside quotes. */
  function CsvFields(line: string): (cols: seq<string>)
    ensures |cols| == CommasOutside(line) + 1
    ensures 1 <= |cols| <= multiset(line)[','] + 1
    ensures forall i :: 0 <= i < |cols| ==> CleanField(cols[i])
  {
    var st := Scan(line);
    ScanShape(line);
    ScanCommas(line);
    ScanFieldCount(line);
    FinishedField(st.current);
    PushClean(st.fields, Finish(st.current));
    st.fields + [Finish(st.current)]
  }

  /** `parseCsvLine` as written: the loop over the characters of the line. */
  method ParseCsvLine(line: string) returns (result: seq<string>)
    ensures result == CsvFields(line)
  {
    result := [];
    var current := "";
    var inQuotes := false;
    for i := 0 to |line|
      invariant Scan(line[..i]) == ScanState(result, current, inQuotes)
    {
      var c := line[i];
      assert line[..i + 1] == line[..i] + [c];
      ScanSnoc(line[..i], c);
      if c == '"' {
        inQuotes := !inQuotes;
      } else if c == ',' && !inQuotes {
        result := result + [Finish(current)];
        current := "";
      } else {
        current := current + [c];
      }
    }
    assert line[..|line|] == line;
    result := result + [Finish(current)];
  }

  /** Every piece, trimmed, in order. */
  function TrimAll(parts: seq<string>): (r: seq<string>)
    ensures |r| == |parts|
  {
    if parts == [] then []
    else TrimAll(parts[..|parts| - 1]) + [Trim(parts[|parts| - 1])]
  }

  lemma TrimAllSnoc(xs: seq<string>, x: string)
    ensures TrimAll(xs + [x]) == TrimAll(xs) + [Trim(x)]
  {
    assert (xs + [x])[..|xs|] == xs;
  }

  /** Splitting a string with one more character at the end. */
  lemma SplitSnoc(s: string, c: char, sep: char)
    ensures var p := Split(s, sep);
      Split(s + [c], sep) == (if c == sep then p + [""] else p[..|p| - 1] + [p[|p| - 1] + [c]])
  {
    if c == sep {
      SplitSnocSep(s, sep);
    } else {
      SplitSnocOther(s, c, sep);
    }
  }

  /** A separator at the end opens an empty last piece. */
  lemma {:induction false} SplitSnocSep(s: string, sep: char)
    ensures Split(s + [sep], sep) == Split(s, sep) + [""]
  {
    if s == [] {
      assert [] + [sep] == [sep] && [sep][1..] == [];
    } else {
      var t := s[1..];
      var p := Split(t, sep);
      SplitSnocSep(t, sep);
      assert Split(s + [sep], sep) == (if s[0] == sep then [""] + (p + [""]) else [[s[0]] + (p + [""])[0]] + (p + [""])[1..]) by {
        assert (s + [sep])[0] == s[0] && (s + [sep])[1..] == t + [sep];
        SplitStep(s + [sep], sep);
      }
      assert Split(s, sep) == (if s[0] == sep then [""] + p else [[s[0]] + p[0]] + p[1..]) by {
        SplitStep(s, sep);
      }
      if s[0] != sep {
        assert (p + [""])[0] == p[0] && (p + [""])[1..] == p[1..] + [""];
      }
    }
  }

  /** Any other character at the end extends the last piece. */
  lemma {:induction false} SplitSnocOther(s: string, c: char, sep: char)
    requires c != sep
    ensures var p := Split(s, sep);
      Split(s + [c], sep) == p[..|p| - 1] + [p[|p| - 1] + [c]]
  {
    if s == [] {
      assert [] + [c] == [c] && [c][1..] == [];
      assert [c] + "" == [c];
    } else {
      var t := s[1..];
      var p, q := Split(t, sep), Split(t + [c], sep);
      SplitSnocOther(t, c, sep);
      assert Split(s, sep) == (if s[0] == sep then [""] + p else [[s[0]] + p[0]] + p[1..]) by {
        SplitStep(s, sep);
      }
      assert Split(s + [c], sep) == (if s[0] == sep then [""] + q else [[s[0]] + q[0]] + q[1..]) by {
        assert (s + [c])[0] == s[0] && (s + [c])[1..] == t + [c];
        SplitStep(s + [c], sep);
      }
      SnocOtherStep(s[0], p, q, c, sep);
    }
  }

  /** The inductive step of `SplitSnocOther`, on the pieces alone: putting a
      first character in front commutes with extending the last piece. */
  lemma SnocOtherStep(s0: char, p: seq<string>, q: seq<string>, c: char, sep: char)
    requires |p| >= 1 && q == p[..|p| - 1] + [p[|p| - 1] + [c]]
    ensures var whole := if s0 == sep then [""] + p else [[s0] + p[0]] + p[1..];
      var longer := if s0 == sep then [""] + q else [[s0] + q[0]] + q[1..];
      longer == whole[..|whole| - 1] + [whole[|whole| - 1] + [c]]
  {
    var n := |p|;
    if s0 == sep {
      var whole := [""] + p;
      assert whole[..|whole| - 1] == [""] + p[..n - 1];
    } else {
      var whole := [[s0] + p[0]] + p[1..];
      if n == 1 {
        assert whole[..|whole| - 1] == [];
        assert [s0] + (p[0] + [c]) == ([s0] + p[0]) + [c];
      } else {
        assert q[0] == p[0];
        assert q[1..] == p[1..n - 1] + [p[n - 1] + [c]];
        assert whole[..|whole| - 1] == [[s0] + p[0]] + p[1..n - 1];
      }
    }
  }

  /** The splitter's state after reading `s` matches `s.split(',')`: the
      fields finished so far are all pieces but the last, trimmed, and the
      last piece is still being read outside quotes. */
  predicate ScanMatchesSplit(s: string) {
    var p := Split(s, ',');
    && Scan(s).fields == TrimAll(p[..|p| - 1])
    && Scan(s).current == p[|p| - 1]
    && !Scan(s).inQuotes
  }

  /** On a line without quotes the splitter follows `split(',')`, one
      character at a time. */
  lemma {:induction false} ScanWithoutQuotes(s: string)
    requires '"' !in s
    ensures ScanMatchesSplit(s)
    decreases |s|
  {
    if s != [] {
      var pre, c := s[..|s| - 1], s[|s| - 1];
      assert s == pre + [c];
      assert '"' !in pre && c != '"' by {
        assert forall x :: x in pre ==> x in s;
        assert c in s;
      }
      ScanWithoutQuotes(pre);
      MatchesSplitSnoc(pre, c);
    }
  }

  /** A character other than a quote keeps the splitter in step with `split(',')`. */
  lemma MatchesSplitSnoc(pre: string, c: char)
    requires '"' !in pre && c != '"' && ScanMatchesSplit(pre)
    ensures ScanMatchesSplit(pre + [c])
  {
    SplitSnoc(pre, c, ',');
    ScanShape(pre);
    ScanSnoc(pre, c);
    StepFollowsSplit(Scan(pre), Split(pre, ','), c);
  }

  /** One step of the splitter on a character other than a quote agrees with
      one more character of `split(',')`. */
  lemma StepFollowsSplit(st: ScanState, p: seq<string>, c: char)
    requires |p| >= 1 && c != '"' && '"' !in st.current
    requires st.fields == TrimAll(p[..|p| - 1]) && st.current == p[|p| - 1] && !st.inQuotes
    ensures var q := if c == ',' then p + [""] else p[..|p| - 1] + [p[|p| - 1] + [c]];
      && Step(st, c).fields == TrimAll(q[..|q| - 1])
      && Step(st, c).current == q[|q| - 1]
      && !Step(st, c).inQuotes
  {
    if c == ',' {
      FinishedField(st.current);
      assert (p + [""])[..|p|] == p;
      InitLast(p);
      TrimAllSnoc(p[..|p| - 1], p[|p| - 1]);
    } else {
      var q := p[..|p| - 1] + [p[|p| - 1] + [c]];
      assert q[..|q| - 1] == p[..|p| - 1];
    }
  }

  /** Without quotes, `parseCsvLine` is `line.split(',')` with every piece trimmed. */
  lemma CsvFieldsWithoutQuotes(line: string)
    requires '"' !in line
    ensures CsvFields(line) == TrimAll(Split(line, ','))
  {
    ScanWithoutQuotes(line);
    ScanShape(line);
    FieldsOfPieces(Scan(line), Split(line, ','));
  }

  /** Pushing the last piece after the finished ones trims every piece. */
  lemma FieldsOfPieces(st: ScanState, p: seq<string>)
    requires |p| >= 1 && '"' !in st.current
    requires st.fields == TrimAll(p[..|p| - 1]) && st.current == p[|p| - 1]
    ensures st.fields + [Finish(st.current)] == TrimAll(p)
  {
    FinishedField(st.current);
    TrimAllSnoc(p[..|p| - 1], p[|p| - 1]);
    InitLast(p);
  }

  lemma InitLast<T>(p: seq<T>)
    requires |p| >= 1
    ensures p[..|p| - 1] + [p[|p| - 1]] == p
  {
  }
}
