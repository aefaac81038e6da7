/** The spreadsheet import of utils/csv_to_objects.py: the cleaning of a
    row read with every column as text, the date formats it recognises, and
    the records one row turns into. A row is a Python dict, held here as its
    list of (column, value) pairs in column order. Reading the file (pandas)
    and the database writes are outside the model: the records a row
    creates are returned, in the order the source creates them. */
module CsvImport {

  import opened Outcomes
  import opened Text
  import opened Dates
  import Entities

  /** A cell: `None`, a float NaN (an empty cell as pandas reads it), a text,
      or an aware midnight `datetime` produced by the date parsing. */
  datatype Cell = Null | Nan | Text(s: string) | Moment(d: Date)

  // ------------------------------------------------------------- strptime

  /** The `datetime.strptime` formats the import uses: `%d.%m.%Y`,
      `%Y-%m-%d`, `%m/%d/%Y`, `%d/%m/%Y`. */
  datatype Format = DayMonthYearDot | YearMonthDayDash | MonthDayYearSlash | DayMonthYearSlash

  function Separator(f: Format): char {
    match f
    case DayMonthYearDot => '.'
    case YearMonthDayDash => '-'
    case MonthDayYearSlash => '/'
    case DayMonthYearSlash => '/'
  }

  /** The digits of a `%d` field, which may carry one leading blank. */
  function Digits(p: string): string {
    if |p| > 0 && p[0] == ' ' then p[1..] else p
  }

  /** Digits with no blank in front are their own digits. */
  lemma UnpaddedDigits(p: string)
    requires AllDigits(p) && |p| > 0
    ensures Digits(p) == p
  {
    assert IsDigit(p[0]);
  }

  /** What `%d` matches: `3[01]|[12]\d|0[1-9]|[1-9]| [1-9]`. */
  predicate DayText(p: string) {
    var q := Digits(p);
    AllDigits(q) && |q| > 0 && 1 <= DigitsValue(q)
    && ((|p| == 2 && |q| == 2 && DigitsValue(q) <= 31) || |q| == 1)
  }

  /** Two digits worth 1 to 31 are a `%d` field. */
  lemma TwoDigitDay(p: string)
    requires AllDigits(p) && |p| == 2 && 1 <= DigitsValue(p) <= 31
    ensures DayText(p)
  {
    UnpaddedDigits(p);
  }

  /** What `%m` matches: `1[0-2]|0[1-9]|[1-9]`. */
  predicate MonthText(p: string) {
    AllDigits(p) && 1 <= DigitsValue(p) && ((|p| == 2 && DigitsValue(p) <= 12) || |p| == 1)
  }

  /** What `%Y` matches: four digits. */
  predicate YearText(p: string) {
    |p| == 4 && AllDigits(p)
  }

  /** The three fields of a split value, as (day, month, year) texts. */
  function Fields(f: Format, parts: seq<string>): (string, string, string)
    requires |parts| == 3
  {
    match f
    case DayMonthYearDot => (parts[0], parts[1], parts[2])
    case YearMonthDayDash => (parts[2], parts[1], parts[0])
    case MonthDayYearSlash => (parts[1], parts[0], parts[2])
    case DayMonthYearSlash => (parts[0], parts[1], parts[2])
  }

  /** `datetime.strptime(v, f)` read as a date: the value must be exactly
      three fields around the format's two separators, each field must match
      its directive, and the result must be a real calendar date; `None`
      stands for the `ValueError`. */
  function Strptime(v: string, f: Format): (r: Option<Date>)
    ensures r.Some? ==> Valid(r.value)
  {
    var parts := Split(v, [Separator(f)]);
    if |parts| != 3 then None
    else
      var (dp, mp, yp) := Fields(f, parts);
      if DayText(dp) && MonthText(mp) && YearText(yp) then
        var d := Date(DigitsValue(yp), DigitsValue(mp), DigitsValue(Digits(dp)));
        if Valid(d) then Some(d) else None
      else None
  }

  // ------------------------------------------------------ parse_date_field

  /** The three shapes of the `date_pattern` regex:
      `\d{2}\.\d{2}\.\d{4}`, `\d{4}-\d{2}-\d{2}`, `\d{2}/\d{2}/\d{4}`. */
  predicate DottedShape(v: string) {
    |v| == 10 && v[2] == '.' && v[5] == '.' && AllDigits(v[..2]) && AllDigits(v[3..5]) && AllDigits(v[6..])
  }

  predicate DashedShape(v: string) {
    |v| == 10 && v[4] == '-' && v[7] == '-' && AllDigits(v[..4]) && AllDigits(v[5..7]) && AllDigits(v[8..])
  }

  predicate SlashedShape(v: string) {
    |v| == 10 && v[2] == '/' && v[5] == '/' && AllDigits(v[..2]) && AllDigits(v[3..5]) && AllDigits(v[6..])
  }

  predicate DateShaped(v: string) { DottedShape(v) || DashedShape(v) || SlashedShape(v) }

  /** The format `parse_date_field` picks for a shaped value: the dotted
      one if it holds a `.`, else the dashed one if it holds a `-`, else the
      day-first slashed one. */
  function ShapeFormat(v: string): Format {
    if '.' in v then DayMonthYearDot else if '-' in v then YearMonthDayDash else DayMonthYearSlash
  }

  /** `parse_date_field`: a value that is not a text comes back unchanged; a
      blank text gives `None`; a stripped text of one of the three shapes is
      parsed with the format its separator names (`.` first, then `-`, then
      `/`, day first), and a shape that is no calendar date raises; any other
      text comes back stripped. */
  function ParseDateField(value: Cell): (r: Result<Cell, string>)
    ensures !value.Text? ==> r == Ok(value)
    ensures value.Text? && Strip(value.s) == "" ==> r == Ok(Null)
    ensures value.Text? && Strip(value.s) != "" && !DateShaped(Strip(value.s)) ==> r == Ok(Text(Strip(value.s)))
    ensures value.Text? && r.Ok? && r.value.Moment? ==> DateShaped(Strip(value.s)) && Valid(r.value.d)
    ensures r.Err? ==> value.Text? && DateShaped(Strip(value.s))
  {
    match value
    case Text(s) => ParseStripped(Strip(s))
    case _ => Ok(value)
  }

  /** `parse_date_field` once the text is stripped. */
  function ParseStripped(v: string): Result<Cell, string> {
    if v == "" then Ok(Null)
    else if DateShaped(v) then
      match Strptime(v, ShapeFormat(v))
      case Some(d) => Ok(Moment(d))
      case None => Err("ValueError")
    else Ok(Text(v))
  }

  /** The characters of a dashed value: digits, and `-` at positions 4 and
      7 only. */
  lemma DashedChars(v: string)
    requires DashedShape(v)
    ensures forall k :: 0 <= k < |v| ==> (v[k] == '-' <==> k == 4 || k == 7) && (k != 4 && k != 7 ==> IsDigit(v[k]))
  {
    forall k | 0 <= k < |v|
      ensures (v[k] == '-' <==> k == 4 || k == 7) && (k != 4 && k != 7 ==> IsDigit(v[k]))
    {
      if k < 4 { assert v[..4][k] == v[k]; }
      else if 4 < k < 7 { assert v[5..7][k - 5] == v[k]; }
      else if 7 < k { assert v[8..][k - 8] == v[k]; }
    }
  }

  /** A dashed value is its own stripped text and is read with the dashed
      format. */
  lemma DashedRead(v: string)
    requires DashedShape(v)
    ensures Strip(v) == v && DateShaped(v) && ShapeFormat(v) == YearMonthDayDash
  {
    DashedChars(v);
    StripUnpadded(v);
    assert '.' !in v && v[4] in v;
  }

  /** A dashed value splits at its two dashes. */
  lemma DashedSplit(v: string)
    requires DashedShape(v)
    ensures Split(v, [Separator(YearMonthDayDash)]) == [v[..4], v[5..7], v[8..]]
  {
    DashedChars(v);
    assert '-' !in v[..4] && '-' !in v[5..7] && '-' !in v[8..];
    SplitThree(v, '-', 4, 7);
  }

  /** `%Y-%m-%d` reads a dashed value whose three numbers are a valid date's
      fields as that date. */
  lemma DashedStrptime(v: string, d: Date)
    requires DashedShape(v) && Valid(d)
    requires DigitsValue(v[..4]) == d.year && DigitsValue(v[5..7]) == d.month && DigitsValue(v[8..]) == d.day
    ensures Strptime(v, YearMonthDayDash) == Some(d)
  {
    DashedSplit(v);
    assert d.day <= 31;
    TwoDigitDay(v[8..]);
    UnpaddedDigits(v[8..]);
  }

  /** A dashed value that `%Y-%m-%d` reads as a date is parsed as that
      date. */
  lemma DashedParsed(v: string, d: Date)
    requires DashedShape(v) && Strptime(v, YearMonthDayDash) == Some(d)
    ensures ParseDateField(Text(v)) == Ok(Moment(d))
  {
    DashedRead(v);
    assert DateShaped(v);
    assert ParseStripped(v) == Ok(Moment(d));
  }

  /** Reading a date's ISO text, as `str(date)` writes it, gives the date
      back. */
  lemma IsoTextParsed(d: Date)
    requires Valid(d)
    ensures ParseDateField(Text(IsoString(d))) == Ok(Moment(d))
  {
    IsoStringFields(d);
    DashedStrptime(IsoString(d), d);
    DashedParsed(IsoString(d), d);
  }

  // ---------------------------------------------------- clean_and_parse_row

  /** A row as its (column, value) pairs in column order. */
  type Row = seq<(string, Cell)>

  /** The columns whose text is read as a date: Від, До, Дата and Термін
      документу. */
  predicate IsDateKey(k: string) {
    k == "Від" || k == "До" || k == "Дата" || k == "Термін документу"
  }

  /** The order in which the cleaning tries formats: `%d.%m.%Y`,
      `%Y-%m-%d`, `%m/%d/%Y`, `%d/%m/%Y`. */
  function RowFormats(): seq<Format> {
    [DayMonthYearDot, YearMonthDayDash, MonthDayYearSlash, DayMonthYearSlash]
  }

  /** The date read by the first format of `fs` that reads `v`, if any. */
  function FirstFormat(v: string, fs: seq<Format>): (r: Option<Date>)
    ensures r.None? <==> forall i :: 0 <= i < |fs| ==> Strptime(v, fs[i]).None?
    ensures r.Some? ==> exists i :: 0 <= i < |fs| && Strptime(v, fs[i]) == r && FailsBefore(v, fs, i)
    decreases |fs|
  {
    if fs == [] then None
    else match Strptime(v, fs[0])
      case Some(d) =>
        assert FailsBefore(v, fs, 0);
        Some(d)
      case None =>
        var r := FirstFormat(v, fs[1..]);
        if r.Some? then
          var i :| 0 <= i < |fs| - 1 && Strptime(v, fs[1..][i]) == r && FailsBefore(v, fs[1..], i);
          assert Strptime(v, fs[i + 1]) == r && FailsBefore(v, fs, i + 1);
          r
        else
          assert forall i :: 0 < i < |fs| ==> fs[i] == fs[1..][i - 1];
          r
  }

  /** No format of `fs` before index `i` reads `v`. */
  predicate FailsBefore(v: string, fs: seq<Format>, i: nat)
    requires i <= |fs|
  {
    forall j :: 0 <= j < i ==> Strptime(v, fs[j]).None?
  }

  /** The format loop of the cleaning: try each format in turn and stop at
      the first that reads the text. */
  method TryFormats(v: string) returns (parsed: Option<Date>)
    ensures parsed == FirstFormat(v, RowFormats())
  {
    var fs := RowFormats();
    parsed := None;
    var i := 0;
    while i < |fs|
      invariant 0 <= i <= |fs|
      invariant parsed == None
      invariant FirstFormat(v, fs) == FirstFormat(v, fs[i..])
    {
      var attempt := Strptime(v, fs[i]);
      if attempt.Some? {
        parsed := attempt;
        break;
      }
      assert fs[i..][1..] == fs[i + 1..];
      i := i + 1;
    }
  }

  /** One cell of `clean_and_parse_row`: NaN becomes `None`; the text of a
      date column is stripped, a blank becomes `None`, and the first format
      that reads it gives a date; every other value stays as it is. */
  function CleanCell(k: string, v: Cell): (r: Cell)
    ensures r != Nan
    ensures v.Nan? ==> r == Null
    ensures !IsDateKey(k) && !v.Nan? ==> r == v
    ensures IsDateKey(k) && v.Text? ==> (r == Null <==> Strip(v.s) == "")
    ensures IsDateKey(k) && v.Text? && r.Text? ==> r.s == Strip(v.s)
    ensures r.Moment? && !v.Moment? ==> IsDateKey(k) && v.Text? && Valid(r.d)
  {
    if v.Nan? then Null
    else if IsDateKey(k) && v.Text? then CleanDateText(Strip(v.s))
    else v
  }

  /** The stripped text of a date column, cleaned. */
  function CleanDateText(t: string): Cell {
    if t == "" then Null
    else match FirstFormat(t, RowFormats())
      case Some(d) => Moment(d)
      case None => Text(t)
  }

  /** A row as pandas reads it with every column as text: texts and NaN. */
  predicate Raw(row: Row) {
    forall i :: 0 <= i < |row| ==> row[i].1.Text? || row[i].1.Nan?
  }

  /** A row the import works on: no NaN left, and dates only in the date
      columns. */
  predicate Cleaned(row: Row) {
    forall i :: 0 <= i < |row| ==> row[i].1 != Nan && (row[i].1.Moment? ==> IsDateKey(row[i].0))
  }

  /** `clean_and_parse_row`: every column keeps its name and place, and its
      value is cleaned; a raw row comes out cleaned. */
  method CleanAndParseRow(row: Row) returns (cleaned: Row)
    ensures |cleaned| == |row|
    ensures forall i :: 0 <= i < |row| ==> cleaned[i] == (row[i].0, CleanCell(row[i].0, row[i].1))
    ensures Raw(row) ==> Cleaned(cleaned)
  {
    cleaned := [];
    var i := 0;
    while i < |row|
      invariant 0 <= i <= |row| && |cleaned| == i
      invariant forall j :: 0 <= j < i ==> cleaned[j] == (row[j].0, CleanCell(row[j].0, row[j].1))
    {
      var (k, v) := row[i];
      i := i + 1;
      if v.Nan? {
        cleaned := cleaned + [(k, Null)];
        continue;
      }
      if IsDateKey(k) && v.Text? {
        var t := Strip(v.s);
        if t == "" {
          cleaned := cleaned + [(k, Null)];
          continue;
        }
        var parsed := TryFormats(t);
        if parsed.Some? {
          cleaned := cleaned + [(k, Moment(parsed.value))];
          continue;
        }
        v := Text(t);
      }
      cleaned := cleaned + [(k, v)];
    }
  }

  /** Cleaning a cleaned cell changes nothing. */
  lemma CleanCellIdempotent(k: string, v: Cell)
    ensures CleanCell(k, CleanCell(k, v)) == CleanCell(k, v)
  {
    var r := CleanCell(k, v);
    if IsDateKey(k) && r.Text? && v.Text? {
      var t := Strip(v.s);
      assert r == CleanDateText(t) && r.s == t;
      StripIdempotent(v.s);
      assert CleanCell(k, r) == CleanDateText(t);
    }
  }

  /** `clean_row`: NaN becomes `None`, every other value stays. */
  method CleanRow(row: Row) returns (cleaned: Row)
    ensures |cleaned| == |row|
    ensures forall i :: 0 <= i < |row| ==> cleaned[i].0 == row[i].0
    ensures forall i :: 0 <= i < |row| ==> cleaned[i].1 == (if row[i].1.Nan? then Null else row[i].1)
    ensures Raw(row) ==> Cleaned(cleaned)
  {
    cleaned := [];
    var i := 0;
    while i < |row|
      invariant 0 <= i <= |row| && |cleaned| == i
      invariant forall j :: 0 <= j < i ==> cleaned[j] == (row[j].0, if row[j].1.Nan? then Null else row[j].1)
    {
      var (k, v) := row[i];
      if v.Nan? {
        cleaned := cleaned + [(k, Null)];
      } else {
        cleaned := cleaned + [(k, v)];
      }
      i := i + 1;
    }
  }

  // ------------------------------------------------ slashed dates, two ways

  /** The characters of a slashed value: digits, and `/` at positions 2 and
      5. */
  lemma SlashedChars(v: string)
    requires SlashedShape(v)
    ensures forall k :: 0 <= k < |v| ==> (v[k] == '/' <==> k == 2 || k == 5) && (k != 2 && k != 5 ==> IsDigit(v[k]))
  {
    forall k | 0 <= k < |v|
      ensures (v[k] == '/' <==> k == 2 || k == 5) && (k != 2 && k != 5 ==> IsDigit(v[k]))
    {
      if k < 2 { assert v[..2][k] == v[k]; }
      else if 2 < k < 5 { assert v[3..5][k - 3] == v[k]; }
      else if 5 < k { assert v[6..][k - 6] == v[k]; }
    }
  }

  /** The dotted and dashed formats do not read a slashed value. */
  lemma SlashedNotDottedOrDashed(v: string)
    requires SlashedShape(v)
    ensures Strptime(v, DayMonthYearDot) == None && Strptime(v, YearMonthDayDash) == None
  {
    SlashedChars(v);
    assert '.' !in v && '-' !in v;
    SplitNone(v, '.');
    SplitNone(v, '-');
  }

  /** A slashed value is its own stripped text and is read day first by
      `parse_date_field`. */
  lemma SlashedRead(v: string)
    requires SlashedShape(v)
    ensures Strip(v) == v && DateShaped(v) && ShapeFormat(v) == DayMonthYearSlash
  {
    SlashedChars(v);
    StripUnpadded(v);
    assert '.' !in v && '-' !in v;
  }

  /** In a date column the cleaning reads a slashed value month first, and
      day first only when month first fails. */
  lemma SlashedCleanedMonthFirst(k: string, v: string)
    requires IsDateKey(k) && SlashedShape(v)
    ensures CleanCell(k, Text(v)) ==
      match Strptime(v, MonthDayYearSlash)
      case Some(d) => Moment(d)
      case None =>
        match Strptime(v, DayMonthYearSlash)
        case Some(e) => Moment(e)
        case None => Text(v)
  {
    SlashedRead(v);
    SlashedFirstFormat(v);
    assert CleanCell(k, Text(v)) == CleanDateText(v);
  }

  /** On a slashed value the format loop comes down to month first, then
      day first. */
  lemma SlashedFirstFormat(v: string)
    requires SlashedShape(v)
    ensures FirstFormat(v, RowFormats()) ==
      match Strptime(v, MonthDayYearSlash)
      case Some(d) => Some(d)
      case None => Strptime(v, DayMonthYearSlash)
  {
    SlashedNotDottedOrDashed(v);
    var fs := RowFormats();
    assert fs[1..][1..] == [MonthDayYearSlash, DayMonthYearSlash];
    assert FirstFormat(v, fs) == FirstFormat(v, [MonthDayYearSlash, DayMonthYearSlash]);
    assert [MonthDayYearSlash, DayMonthYearSlash][1..] == [DayMonthYearSlash];
  }

  /** `parse_date_field` reads the same slashed value day first, and raises
      where that is no date. */
  lemma SlashedParsedDayFirst(v: string)
    requires SlashedShape(v)
    ensures ParseDateField(Text(v)) ==
      match Strptime(v, DayMonthYearSlash)
      case Some(e) => Ok(Moment(e))
      case None => Err("ValueError")
  {
    SlashedRead(v);
    assert ParseDateField(Text(v)) == ParseStripped(v);
  }

  /** Where both slashed formats read a value, they give the same year with
      day and month swapped: the two import paths disagree on every such
      value whose day and month differ. */
  lemma SlashReadingsSwap(v: string, d: Date, e: Date)
    requires Strptime(v, MonthDayYearSlash) == Some(d) && Strptime(v, DayMonthYearSlash) == Some(e)
    ensures e == Date(d.year, d.day, d.month)
  {
    var parts := Split(v, ['/']);
    assert |parts| == 3;
    UnpaddedDigits(parts[0]);
    UnpaddedDigits(parts[1]);
  }

  // --------------------------------------------------------- parse_contact

  /** `parse_contact`: a text with `@` is an e-mail address, stripped;
      exactly two words are a (type, value) pair; anything else gives
      neither. */
  function ParseContact(c: string): (r: (Option<string>, Option<string>))
    ensures r.0.Some? <==> r.1.Some?
    ensures '@' in c ==> r == (Some("email"), Some(Strip(c)))
    ensures '@' !in c ==> (r.0.Some? <==> |Words(c)| == 2)
    ensures r.0.Some? && r.0 != Some("email") ==> NoSpace(r.0.value) && NoSpace(r.1.value)
  {
    if '@' in c then (Some("email"), Some(Strip(c)))
    else
      var parts := Words(c);
      if |parts| == 2 then (Some(parts[0]), Some(parts[1]))
      else (None, None)
  }

  /** A type and a value written with one blank between them are read
      back as that pair. */
  lemma ContactRoundTrip(kind: string, value: string)
    requires |kind| > 0 && |value| > 0 && NoSpace(kind) && NoSpace(value)
    requires '@' !in kind && '@' !in value
    ensures ParseContact(kind + " " + value) == (Some(kind), Some(value))
  {
    var c := kind + " " + value;
    assert Words(c) == [kind] + [value] by {
      assert c == kind + ([' '] + value);
      TwoWords(kind, value);
    }
    JoinedFree(kind, value, '@');
  }

  /** Joining two texts with a blank adds no other character. */
  lemma JoinedFree(a: string, b: string, x: char)
    requires x != ' ' && x !in a && x !in b
    ensures x !in a + " " + b
  {
    var c := a + " " + b;
    forall i | 0 <= i < |c|
      ensures c[i] != x
    {
      if i < |a| { assert c[i] == a[i]; }
      else if i > |a| { assert c[i] == b[i - |a| - 1]; }
    }
  }

  // ------------------------------------------------- create_employee_from_row

  /** Python truthiness of a cell: `None` and the empty text are false. */
  predicate Truthy(c: Cell) {
    match c
    case Null => false
    case Text(s) => s != ""
    case _ => true
  }

  /** `row.get(k, default)`: the value of the first column named `k`. */
  function Get(row: Row, k: string, default: Cell): (c: Cell)
    ensures (forall i :: 0 <= i < |row| ==> row[i].0 != k) ==> c == default
    ensures c != default ==> exists i :: 0 <= i < |row| && row[i] == (k, c)
  {
    if row == [] then default
    else if row[0].0 == k then row[0].1
    else
      var c := Get(row[1..], k, default);
      assert forall i :: 0 < i < |row| ==> row[i] == row[1..][i - 1];
      c
  }

  /** Outside the date columns a cleaned row holds only texts and `None`. */
  lemma GetCleaned(row: Row, k: string, default: Cell)
    requires Cleaned(row) && !IsDateKey(k) && (default.Null? || default.Text?)
    ensures Get(row, k, default).Null? || Get(row, k, default).Text?
  {
  }

  const NameKey := "Призвіще"

  /** The name column split as the import splits it: two or more words
      give the second as first name and the first as last name, the rest
      dropped; otherwise the whole text is the first name and the last
      name is empty. A `None` name has no `split` and raises. */
  function NameParts(raw: Cell): (r: Result<(string, string), string>)
    requires raw.Null? || raw.Text?
    ensures r.Ok? <==> raw.Text?
    ensures r.Err? ==> r.error == "AttributeError"
    ensures raw.Text? && |Words(raw.s)| >= 2 ==> NoSpace(r.value.0) && NoSpace(r.value.1) && r.value.0 != "" && r.value.1 != ""
    ensures raw.Text? && |Words(raw.s)| < 2 ==> r.value == (raw.s, "")
  {
    match raw
    case Null => Err("AttributeError")
    case Text(s) =>
      var parts := Words(s);
      if |parts| >= 2 then Ok((parts[1], parts[0])) else Ok((s, ""))
  }

  /** An employee's full name, last name first, splits back into the two
      names when each is one word. */
  lemma NameRoundTrip(e: Entities.Employee)
    requires |e.firstName| > 0 && |e.lastName| > 0 && NoSpace(e.firstName) && NoSpace(e.lastName)
    ensures NameParts(Text(Entities.FullName(e))) == Ok((e.firstName, e.lastName))
  {
    assert Entities.FullName(e) == e.lastName + ([' '] + e.firstName);
    TwoWords(e.lastName, e.firstName);
  }

  /** The employee row the import creates; the creation and update times
      are the clock's and are left out. */
  datatype EmployeeDraft = EmployeeDraft(
    firstName: string, lastName: string, age: Cell, isStudent: bool,
    pesel: Cell, peselUrk: bool, workplace: Cell, pit2: bool)

  datatype PeriodDraft = PeriodDraft(startDate: Cell, endDate: Cell)

  datatype DocumentDraft = DocumentDraft(docType: Option<string>, number: Option<string>, validUntil: Cell)

  datatype SanepidDraft = SanepidDraft(status: string, docType: string)

  datatype PermitDraft = PermitDraft(docType: string, endDate: Cell)

  datatype CardDraft = CardDraft(docType: Cell, startDate: Cell)

  datatype ContactDraft = ContactDraft(contactType: Option<string>, value: Option<string>)

  /** `None` for an empty text or `None`, the value otherwise: the rule for
      the age and the period's end. */
  function BlankToNull(c: Cell): (r: Cell)
    ensures r.Null? <==> c.Null? || c == Text("")
    ensures !r.Null? ==> r == c
  {
    if c.Null? || c == Text("") then Null else c
  }

  function EmployeeFor(row: Row, first: string, last: string): (e: EmployeeDraft)
    ensures e.firstName == first && e.lastName == last
    ensures e.isStudent == Truthy(Get(row, "Студент", Null))
    ensures e.age.Null? <==> BlankToNull(Get(row, "Вік", Null)).Null?
  {
    EmployeeDraft(first, last, BlankToNull(Get(row, "Вік", Null)),
      Truthy(Get(row, "Студент", Null)), Get(row, "Песель", Null),
      Truthy(Get(row, "UKR", Null)), Get(row, "Місце затруднення", Null),
      Truthy(Get(row, "Пит-2", Null)))
  }

  /** A period only when the start is set; an empty end is `None`. */
  function PeriodFor(start: Cell, end: Cell): (p: Option<PeriodDraft>)
    ensures p.Some? <==> Truthy(start)
    ensures p.Some? ==> p.value.startDate == start && p.value.endDate == BlankToNull(end)
  {
    if Truthy(start) then Some(PeriodDraft(start, BlankToNull(end))) else None
  }

  /** The one document of a row: a basis starting with "karta" in any case
      is a card whose number is the basis without its lower-case "karta",
      stripped; any other basis is its own type, lower-cased and stripped;
      no basis gives a document with neither type nor date. */
  function DocumentFor(basis: Cell, validUntil: Cell): (d: DocumentDraft)
    requires basis.Null? || basis.Text?
    ensures !Truthy(basis) ==> d == DocumentDraft(None, None, Null)
    ensures Truthy(basis) ==> d.validUntil == validUntil && d.docType.Some?
    ensures Truthy(basis) ==> (d.number.Some? <==> StartsWith(Lower(basis.s), "karta"))
    ensures d.number.Some? ==> d.docType == Some("karta")
  {
    match basis
    case Text(b) =>
      if b == "" then DocumentDraft(None, None, Null)
      else if StartsWith(Lower(b), "karta") then
        DocumentDraft(Some("karta"), Some(Strip(ReplaceAll(b, "karta", ""))), validUntil)
      else
        DocumentDraft(Some(Strip(Lower(b))), None, validUntil)
    case Null => DocumentDraft(None, None, Null)
  }

  /** A basis "karta" followed by a number gives a card document with that
      number, stripped. */
  lemma KartaNumber(n: string, validUntil: Cell)
    requires !Contains(n, "karta")
    ensures DocumentFor(Text("karta" + n), validUntil) == DocumentDraft(Some("karta"), Some(Strip(n)), validUntil)
  {
    var b := "karta" + n;
    assert b[..5] == "karta";
    assert Lower(b)[..5] == "karta" by {
      forall i | 0 <= i < 5
        ensures Lower(b)[i] == "karta"[i]
      {
        assert b[i] == "karta"[i];
      }
    }
    assert ReplaceAll(b, "karta", "") == n by {
      FindLeftmost(b, "karta", 0);
      SplitStep(b, "karta");
      assert b[5..] == n;
      JoinCons("", [n], "");
    }
  }

  /** The removal of "karta" is case-sensitive while the test is not: a
      basis "Karta ..." is a card document whose number keeps the word
      "Karta". */
  lemma CapitalKartaKept(b: string, validUntil: Cell)
    requires |b| >= 5 && b[..5] == "Karta" && !Contains(b, "karta")
    ensures DocumentFor(Text(b), validUntil) == DocumentDraft(Some("karta"), Some(Strip(b)), validUntil)
  {
    assert Lower(b)[..5] == "karta" by {
      forall i | 0 <= i < 5
        ensures Lower(b)[i] == "karta"[i]
      {
        assert b[i] == "Karta"[i];
      }
    }
  }

  /** The contract of a row: only the two known kinds, as written. */
  function ContractFor(kind: Cell): (r: Option<string>)
    ensures r.Some? <==> kind == Text("o prace") || kind == Text("zlecenia")
    ensures r.Some? ==> r.value == "o_prace" || r.value == "zlecenia"
  {
    if kind == Text("o prace") then Some("o_prace")
    else if kind == Text("zlecenia") then Some("zlecenia")
    else None
  }

  /** A sanepid record whose status and type are both the text,
      lower-cased and stripped. */
  function SanepidFor(c: Cell): (r: Option<SanepidDraft>)
    requires c.Null? || c.Text?
    ensures r.Some? <==> Truthy(c)
    ensures r.Some? ==> r.value.status == r.value.docType == Strip(Lower(c.s))
  {
    if Truthy(c) then Some(SanepidDraft(Strip(Lower(c.s)), Strip(Lower(c.s)))) else None
  }

  /** Each piece stripped. */
  function StripAll(ps: seq<string>): (r: seq<string>)
    ensures |r| == |ps| && forall i :: 0 <= i < |ps| ==> r[i] == Strip(ps[i])
  {
    seq(|ps|, i requires 0 <= i < |ps| => Strip(ps[i]))
  }

  /** The work permit of a row: the text split on "do", each piece
      stripped; the first piece is the type and, when there is a second,
      `parse_date_field` of it is the end date, which may raise. */
  function PermitFor(permit: Cell): (r: Result<Option<PermitDraft>, string>)
    requires permit.Null? || permit.Text?
    ensures !Truthy(permit) ==> r == Ok(None)
    ensures Truthy(permit) && r.Ok? ==> r.value.Some?
    ensures r.Err? ==> Truthy(permit) && r.error == "ValueError"
    ensures Truthy(permit) && !Contains(permit.s, "do") ==> r == Ok(Some(PermitDraft(Strip(permit.s), Null)))
  {
    match permit
    case Text(p) =>
      if p == "" then Ok(None)
      else
        var r := PermitOfPieces(StripAll(Split(p, "do")));
        if r.Ok? then Ok(Some(r.value)) else Err(r.error)
    case Null => Ok(None)
  }

  /** The permit made of the stripped pieces of its text. */
  function PermitOfPieces(pieces: seq<string>): (r: Result<PermitDraft, string>)
    requires |pieces| >= 1
    ensures r.Err? ==> r.error == "ValueError"
    ensures |pieces| == 1 ==> r == Ok(PermitDraft(pieces[0], Null))
  {
    if |pieces| >= 2 then
      match ParseDateField(Text(pieces[1]))
      case Err(_) => Err("ValueError")
      case Ok(c) => Ok(PermitDraft(pieces[0], c))
    else Ok(PermitDraft(pieces[0], Null))
  }

  /** A card submission when the column is set, dated by the Дата column. */
  function CardFor(submission: Cell, date: Cell): (r: Option<CardDraft>)
    ensures r.Some? <==> Truthy(submission)
    ensures r.Some? ==> r.value == CardDraft(submission, date)
  {
    if Truthy(submission) then Some(CardDraft(submission, date)) else None
  }

  /** A contact when the column is set, read by `parse_contact`. */
  function ContactFor(c: Cell): (r: Option<ContactDraft>)
    requires c.Null? || c.Text?
    ensures r.Some? <==> Truthy(c)
    ensures r.Some? ==> (r.value.contactType, r.value.value) == ParseContact(c.s)
  {
    if Truthy(c) then
      var (kind, value) := ParseContact(c.s);
      Some(ContactDraft(kind, value))
    else None
  }

  /** A permit type without "do", the word "do" between blanks, and a
      text without a `d` split into the two blank-padded sides. */
  lemma PermitSplit(doc: string, t: string)
    requires !Contains(doc, "do") && 'd' !in t
    ensures Split(doc + " do " + t, "do") == [doc + " ", " " + t]
  {
    var p := doc + " do " + t;
    var i := |doc| + 1;
    assert p[i..i + 2] == "do";
    forall j | 0 <= j < i
      ensures !OccursAt(p, "do", j)
    {
      if j + 2 <= |doc| {
        assert p[j..j + 2] == doc[j..j + 2];
        assert !OccursAt(doc, "do", j);
      } else {
        assert p[j..j + 2][0] == p[j] && p[j..j + 2][1] == p[j + 1];
        assert p[j + 1] == ' ' || p[j] == ' ';
      }
    }
    assert p[i + 2..] == " " + t;
    assert 'd' !in " " + t;
    FirstCharAbsent(" " + t, "do");
    assert p[..i] == doc + " ";
    SplitOnce(p, "do", i);
  }

  /** A permit written "<type> do <ISO date>" is read back as that type
      ending on that date. */
  lemma PermitRoundTrip(doc: string, d: Date)
    requires Valid(d)
    requires doc != [] && !IsPythonSpace(doc[0]) && !IsPythonSpace(doc[|doc| - 1])
    requires !Contains(doc, "do")
    ensures PermitFor(Text(doc + " do " + IsoString(d))) == Ok(Some(PermitDraft(doc, Moment(d))))
  {
    var iso := IsoString(d);
    assert 'd' !in iso && !IsPythonSpace(iso[0]) && !IsPythonSpace(iso[9]) by {
      DashedChars(iso);
    }
    PermitPieces(doc, iso);
    IsoTextParsed(d);
    assert PermitOfPieces([doc] + [iso]) == Ok(PermitDraft(doc, Moment(d)));
  }

  /** The stripped pieces of "<type> do <text>". */
  lemma PermitPieces(doc: string, t: string)
    requires doc != [] && !IsPythonSpace(doc[0]) && !IsPythonSpace(doc[|doc| - 1])
    requires t != [] && !IsPythonSpace(t[0]) && !IsPythonSpace(t[|t| - 1])
    requires !Contains(doc, "do") && 'd' !in t
    ensures StripAll(Split(doc + " do " + t, "do")) == [doc] + [t]
  {
    PermitSplit(doc, t);
    StripBlankAfter(doc);
    StripBlankBefore(t);
  }

  /** The records one row creates, in creation order; a record not (yet)
      written is `None`. */
  datatype Imported = Imported(
    employee: EmployeeDraft, period: Option<PeriodDraft>, document: Option<DocumentDraft>,
    contract: Option<string>, sanepid: Option<SanepidDraft>,
    permit: Option<PermitDraft>, card: Option<CardDraft>, contact: Option<ContactDraft>)

  /** A row either creates its records, or raises after writing some of
      them: nothing when the name is `None` or the age cannot be stored,
      the records before the failing one otherwise. */
  datatype ImportOutcome = Created(records: Imported) | Raised(written: Option<Imported>, error: string)

  const PermitKey := "Дозвіл на роботу"

  /** The age the import hands to the employee row. */
  function AgeCell(row: Row): (c: Cell)
    requires Cleaned(row)
    ensures c.Null? || (c.Text? && c.s != "")
  {
    GetCleaned(row, "Вік", Null);
    BlankToNull(Get(row, "Вік", Null))
  }

  /** What the `PositiveSmallIntegerField` age makes of the value it is
      given: `int()` of a text raises `ValueError`, and the column's
      `age >= 0` check refuses a negative number. */
  function AgeError(age: Cell): (r: Option<string>)
    requires age.Null? || age.Text?
    ensures r.None? <==> age.Null? || (PythonInt(age.s).Some? && PythonInt(age.s).value >= 0)
    ensures r == Some("ValueError") <==> age.Text? && PythonInt(age.s).None?
    ensures r.Some? ==> r.value == "ValueError" || r.value == "IntegrityError"
  {
    if age.Null? then None
    else match PythonInt(age.s)
      case None => Some("ValueError")
      case Some(n) => if n < 0 then Some("IntegrityError") else None
  }

  /** What a `DateField` accepts from the row: a date or `None`. A text
      left in a cleaned row is one that no format of the import reads, and
      `parse_date` refuses it with a `ValidationError`. */
  predicate DateStored(c: Cell) {
    !c.Text?
  }

  /** Every date field of the written records holds a date or `None`. */
  predicate DatesStored(w: Imported) {
    && (w.period.Some? ==> DateStored(w.period.value.startDate) && DateStored(w.period.value.endDate))
    && (w.document.Some? ==> DateStored(w.document.value.validUntil))
    && (w.permit.Some? ==> DateStored(w.permit.value.endDate))
    && (w.card.Some? ==> DateStored(w.card.value.startDate))
  }

  /** No date column of the row holds a text. */
  predicate DateColumnsRead(row: Row) {
    && DateStored(Get(row, "Від", Null)) && DateStored(Get(row, "До", Null))
    && DateStored(Get(row, "Термін документу", Null)) && DateStored(Get(row, "Дата", Null))
  }

  /** The permit's end date, when the permit is read, is a date or `None`. */
  predicate PermitDateRead(row: Row)
    requires Cleaned(row)
  {
    GetCleaned(row, PermitKey, Null);
    var p := PermitFor(Get(row, PermitKey, Null));
    p.Ok? && p.value.Some? ==> DateStored(p.value.value.endDate)
  }

  /** The employee row alone. */
  function EmployeeOnly(e: EmployeeDraft): (w: Imported)
    ensures w.employee == e && DatesStored(w)
    ensures w.period.None? && w.document.None? && w.permit.None? && w.card.None? && w.contact.None?
  {
    Imported(e, None, None, None, None, None, None, None)
  }

  /** The records written before the permit: the employee, its period,
      document, contract and sanepid record. */
  function RecordsBeforePermit(row: Row, first: string, last: string): (w: Imported)
    requires Cleaned(row)
    ensures w.employee.firstName == first && w.employee.lastName == last
    ensures w.document.Some? && w.permit.None? && w.card.None? && w.contact.None?
  {
    var basis := Get(row, "Підстава", Null);
    var sanepid := Get(row, "Sanepid", Null);
    GetCleaned(row, "Підстава", Null);
    GetCleaned(row, "Sanepid", Null);
    Imported(
      EmployeeFor(row, first, last),
      PeriodFor(Get(row, "Від", Null), Get(row, "До", Null)),
      Some(DocumentFor(basis, Get(row, "Термін документу", Null))),
      ContractFor(Get(row, "Вид умови", Null)),
      SanepidFor(sanepid),
      None, None, None)
  }

  /** The records written from the permit on: the permit, the card
      application and the contact. */
  function WithPermit(row: Row, written: Imported, permit: Option<PermitDraft>): (r: Imported)
    requires Cleaned(row)
    ensures r.employee == written.employee && r.permit == permit
    ensures r.contact.Some? <==> Truthy(Get(row, "Контакт", Null))
  {
    var contact := Get(row, "Контакт", Null);
    GetCleaned(row, "Контакт", Null);
    written.(permit := permit,
      card := CardFor(Get(row, "Подача на карту", Null), Get(row, "Дата", Null)),
      contact := ContactFor(contact))
  }

  /** The creates from the permit on, once the records before it are
      written with readable dates. */
  function FromPermit(row: Row, all: Imported): (r: ImportOutcome)
    requires Cleaned(row) && DatesStored(all)
    requires all.document.Some? && all.permit.None? && all.card.None? && all.contact.None?
    ensures r.Raised? ==>
      && r.written.Some? && DatesStored(r.written.value) && r.written.value.contact.None?
      && r.written.value.employee == all.employee
      && (r.error == "ValidationError" || (r.error == "ValueError" && PermitFor(Get(row, PermitKey, Null)).Err?))
    ensures r.Raised? && r.error == "ValidationError" ==> !DateStored(Get(row, "Дата", Null)) || !PermitDateRead(row)
    ensures r.Created? ==> DatesStored(r.records) && r.records.document.Some? && r.records.employee == all.employee
    ensures r.Created? ==> (r.records.permit.Some? <==> Truthy(Get(row, PermitKey, Null)))
  {
    var permit := Get(row, PermitKey, Null);
    GetCleaned(row, PermitKey, Null);
    match PermitFor(permit)
    case Err(e) => Raised(Some(all), e)
    case Ok(p) =>
      if p.Some? && !DateStored(p.value.endDate) then Raised(Some(all), "ValidationError")
      else
        var done := WithPermit(row, all, p);
        if done.card.Some? && !DateStored(done.card.value.startDate) then
          Raised(Some(all.(permit := p)), "ValidationError")
        else Created(done)
  }

  /** The creates from the period on, once the employee row is written. */
  function FromPeriod(row: Row, first: string, last: string): (r: ImportOutcome)
    requires Cleaned(row)
    ensures r.Raised? ==>
      && r.written.Some? && DatesStored(r.written.value) && r.written.value.contact.None?
      && r.written.value.employee == EmployeeFor(row, first, last)
      && (r.error == "ValidationError" || (r.error == "ValueError" && PermitFor(Get(row, PermitKey, Null)).Err?))
    ensures r.Raised? && r.error == "ValidationError" ==> !DateColumnsRead(row) || !PermitDateRead(row)
    ensures r.Created? ==>
      && DatesStored(r.records) && r.records.document.Some?
      && r.records.employee == EmployeeFor(row, first, last)
    ensures r.Created? ==> (r.records.permit.Some? <==> Truthy(Get(row, PermitKey, Null)))
  {
    var all := RecordsBeforePermit(row, first, last);
    var period := all.period;
    if period.Some? && !(DateStored(period.value.startDate) && DateStored(period.value.endDate)) then
      Raised(Some(EmployeeOnly(all.employee)), "ValidationError")
    else if !DateStored(all.document.value.validUntil) then
      Raised(Some(all.(document := None, contract := None, sanepid := None)), "ValidationError")
    else
      FromPermit(row, all)
  }

  /** `create_employee_from_row` on a cleaned row. Each `create` writes
      its record or raises before writing it; the records written before a
      raise stay written. */
  function CreateEmployeeFromRow(row: Row): (r: ImportOutcome)
    requires Cleaned(row)
    ensures (r.Raised? && r.written.None?) <==>
      Get(row, NameKey, Text("")).Null? || AgeError(AgeCell(row)).Some?
    ensures r.Raised? && r.written.Some? ==>
      DatesStored(r.written.value) && r.written.value.contact.None?
      && (r.error == "ValidationError" || (r.error == "ValueError" && PermitFor(Get(row, PermitKey, Null)).Err?))
    ensures r.Raised? && r.written.None? ==>
      r.error == if Get(row, NameKey, Text("")).Null? then "AttributeError" else AgeError(AgeCell(row)).value
    ensures r.Raised? && r.written.Some? && r.error == "ValidationError" ==> !DateColumnsRead(row) || !PermitDateRead(row)
    ensures r.Created? ==> DatesStored(r.records) && r.records.document.Some?
    ensures r.Created? ==>
      NameParts(Get(row, NameKey, Text(""))) == Ok((r.records.employee.firstName, r.records.employee.lastName))
    ensures r.Created? ==> (r.records.permit.Some? <==> Truthy(Get(row, PermitKey, Null)))
  {
    var raw := Get(row, NameKey, Text(""));
    GetCleaned(row, NameKey, Text(""));
    match NameParts(raw)
    case Err(e) => Raised(None, e)
    case Ok((first, last)) =>
      var age := AgeError(AgeCell(row));
      if age.Some? then Raised(None, age.value) else FromPeriod(row, first, last)
  }

  /** A row whose name column holds an employee's full name of two single
      words, and whose age can be stored, imports an employee with those
      names, whether or not a later record raises. */
  lemma ImportedNames(row: Row, e: Entities.Employee)
    requires Cleaned(row)
    requires Get(row, NameKey, Text("")) == Text(Entities.FullName(e))
    requires |e.firstName| > 0 && |e.lastName| > 0 && NoSpace(e.firstName) && NoSpace(e.lastName)
    requires AgeError(AgeCell(row)).None?
    ensures var r := CreateEmployeeFromRow(row);
      var written := if r.Created? then Some(r.records) else r.written;
      written.Some? && written.value.employee.firstName == e.firstName && written.value.employee.lastName == e.lastName
  {
    NameRoundTrip(e);
  }

  /** An age that `int()` cannot read raises before anything is written. */
  lemma UnreadableAgeRaises(row: Row)
    requires Cleaned(row) && Get(row, NameKey, Text("")).Text?
    requires Get(row, "Вік", Null).Text? && Get(row, "Вік", Null).s != ""
    requires PythonInt(Get(row, "Вік", Null).s).None?
    ensures CreateEmployeeFromRow(row) == Raised(None, "ValueError")
  {
    assert AgeCell(row) == Get(row, "Вік", Null);
  }

  /** A start date the import could not read is refused by the period's
      `create`, after the employee row alone is written. */
  lemma UnreadStartRaises(row: Row)
    requires Cleaned(row) && Get(row, NameKey, Text("")).Text? && AgeError(AgeCell(row)).None?
    requires Get(row, "Від", Null).Text? && Get(row, "Від", Null).s != ""
    ensures var r := CreateEmployeeFromRow(row);
      r.Raised? && r.error == "ValidationError" && r.written.Some?
      && r.written.value.period.None? && r.written.value.document.None?
  {
    var raw := Get(row, NameKey, Text(""));
    GetCleaned(row, NameKey, Text(""));
    var (first, last) := NameParts(raw).value;
    var all := RecordsBeforePermit(row, first, last);
    assert all.period == Some(PeriodDraft(Get(row, "Від", Null), BlankToNull(Get(row, "До", Null))));
    assert FromPeriod(row, first, last) == Raised(Some(EmployeeOnly(all.employee)), "ValidationError");
  }

  /** A permit "<type> do <text>" whose text has none of the three date
      shapes (a two-digit year such as "31.12.24", say) is kept as text by
      `parse_date_field` and refused by the permit's `create`, after the
      records before the permit are written. */
  lemma UnreadPermitDateRaises(row: Row, doc: string, t: string)
    requires Cleaned(row) && Get(row, NameKey, Text("")).Text? && AgeError(AgeCell(row)).None?
    requires DateColumnsRead(row)
    requires doc != [] && !IsPythonSpace(doc[0]) && !IsPythonSpace(doc[|doc| - 1])
    requires t != [] && !IsPythonSpace(t[0]) && !IsPythonSpace(t[|t| - 1])
    requires !Contains(doc, "do") && 'd' !in t && !DateShaped(t)
    requires Get(row, PermitKey, Null) == Text(doc + " do " + t)
    ensures var r := CreateEmployeeFromRow(row);
      r.Raised? && r.error == "ValidationError" && r.written.Some?
      && r.written.value.document.Some? && r.written.value.permit.None?
  {
    PermitTextKept(doc, t);
    GetCleaned(row, NameKey, Text(""));
    var (first, last) := NameParts(Get(row, NameKey, Text(""))).value;
    ReachesPermit(row, first, last);
    var all := RecordsBeforePermit(row, first, last);
    assert FromPermit(row, all) == Raised(Some(all), "ValidationError");
  }

  /** A row whose name and age can be stored and whose date columns hold
      no text writes every record before the permit. */
  lemma ReachesPermit(row: Row, first: string, last: string)
    requires Cleaned(row) && AgeError(AgeCell(row)).None?
    requires Get(row, NameKey, Text("")).Text? && NameParts(Get(row, NameKey, Text(""))) == Ok((first, last))
    requires DateColumnsRead(row)
    ensures var all := RecordsBeforePermit(row, first, last);
      DatesStored(all) && CreateEmployeeFromRow(row) == FromPermit(row, all)
  {
    var all := RecordsBeforePermit(row, first, last);
    assert all.period.Some? ==> DateStored(all.period.value.startDate) && DateStored(all.period.value.endDate);
    GetCleaned(row, "Підстава", Null);
    var document := DocumentFor(Get(row, "Підстава", Null), Get(row, "Термін документу", Null));
    assert all.document == Some(document);
    assert document.validUntil == Null || document.validUntil == Get(row, "Термін документу", Null);
    assert CreateEmployeeFromRow(row) == FromPeriod(row, first, last);
  }

  /** The permit of "<type> do <text>", for a text of no date shape, ends
      on that text. */
  lemma PermitTextKept(doc: string, t: string)
    requires doc != [] && !IsPythonSpace(doc[0]) && !IsPythonSpace(doc[|doc| - 1])
    requires t != [] && !IsPythonSpace(t[0]) && !IsPythonSpace(t[|t| - 1])
    requires !Contains(doc, "do") && 'd' !in t && !DateShaped(t)
    ensures PermitFor(Text(doc + " do " + t)) == Ok(Some(PermitDraft(doc, Text(t))))
  {
    PermitPieces(doc, t);
    StripUnpadded(t);
    assert PermitOfPieces([doc] + [t]) == Ok(PermitDraft(doc, Text(t)));
  }

  /** A row whose name and age can be stored, whose date columns hold no
      text and whose permit is read with a date or none creates all its
      records. */
  lemma ReadableRowImports(row: Row)
    requires Cleaned(row) && Get(row, NameKey, Text("")).Text? && AgeError(AgeCell(row)).None?
    requires DateColumnsRead(row) && PermitDateRead(row)
    requires PermitFor(Get(row, PermitKey, Null)).Ok?
    ensures CreateEmployeeFromRow(row).Created?
  {
  }

  /** A row whose permit reads "<type> do <ISO date>", whose name and age
      can be stored and whose date columns hold no text creates all its
      records, the permit ending on that date. */
  lemma ImportedPermit(row: Row, doc: string, d: Date)
    requires Cleaned(row) && Get(row, NameKey, Text("")).Text? && AgeError(AgeCell(row)).None?
    requires DateColumnsRead(row)
    requires Valid(d)
    requires doc != [] && !IsPythonSpace(doc[0]) && !IsPythonSpace(doc[|doc| - 1])
    requires !Contains(doc, "do")
    requires Get(row, PermitKey, Null) == Text(doc + " do " + IsoString(d))
    ensures CreateEmployeeFromRow(row).Created?
    ensures CreateEmployeeFromRow(row).records.permit == Some(PermitDraft(doc, Moment(d)))
  {
    PermitRoundTrip(doc, d);
    assert PermitDateRead(row);
    ReadableRowImports(row);
  }
}
