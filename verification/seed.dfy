/**
 * `python-generators-0x00/seed.py`: `create_table` drops and recreates
 * `user_data`; `insert_data` skips the CSV header, and for each row of three
 * fields strips them, draws a fresh `user_id`, converts the age with `int`,
 * and inserts the row unless a row with the same email is already in the
 * table; it commits once at the end and rolls back on a database error, such
 * as an INSERT whose values do not fit the column types.
 *
 * The CSV file arrives already split into rows of fields (None when the file
 * does not exist); the uuid drawn for the data row at index `k` is `newId(k)`.
 */
module Seed {
  import opened Wrappers
  import opened UserData

  // ---------------------------------------------------------------- text

  /**
   * The characters `str.strip()` removes: those for which `str.isspace()`
   * holds, that is the Unicode space separators and the characters whose
   * bidirectional class is whitespace, segment or paragraph separator.
   */
  predicate IsSpace(c: char)
  {
    || '\t' <= c <= '\r'                   // tab, line feed, vertical tab, form feed, carriage return
    || '\U{1C}' <= c <= '\U{1F}'           // file, group, record and unit separators
    || c == ' ' || c == '\U{85}' || c == '\U{A0}' || c == '\U{1680}'
    || '\U{2000}' <= c <= '\U{200A}'       // en quad .. hair space
    || c == '\U{2028}' || c == '\U{2029}' || c == '\U{202F}' || c == '\U{205F}' || c == '\U{3000}'
  }

  /** The first position at or after `i` that does not hold whitespace. */
  function SkipSpace(s: string, i: nat): (n: nat)
    requires i <= |s|
    ensures i <= n <= |s| && (n == |s| || !IsSpace(s[n]))
    ensures forall k :: i <= k < n ==> IsSpace(s[k])
    decreases |s| - i
  {
    if i == |s| || !IsSpace(s[i]) then i else SkipSpace(s, i + 1)
  }

  /** The last position at or before `j` that follows a character that is not whitespace. */
  function SkipSpaceBack(s: string, j: nat): (e: nat)
    requires j <= |s|
    ensures e <= j && (e == 0 || !IsSpace(s[e - 1]))
    ensures forall k :: e <= k < j ==> IsSpace(s[k])
  {
    if j == 0 || !IsSpace(s[j - 1]) then j else SkipSpaceBack(s, j - 1)
  }

  /**
   * `x.strip()`: `s` with its leading and trailing whitespace removed; what
   * remains is a contiguous part of `s` that neither starts nor ends with
   * whitespace, and only whitespace is cut off on either side.
   */
  function Strip(s: string): (r: string)
    ensures var i := SkipSpace(s, 0);
            && i + |r| <= |s| && r == s[i..i + |r|]
            && (forall k :: 0 <= k < i ==> IsSpace(s[k]))
            && (forall k :: i + |r| <= k < |s| ==> IsSpace(s[k]))
    ensures r == [] || (!IsSpace(r[0]) && !IsSpace(r[|r| - 1]))
  {
    var i := SkipSpace(s, 0);
    var e := SkipSpaceBack(s, |s|);
    if e <= i then [] else s[i..e]
  }

  predicate IsDigit(c: char) { '0' <= c <= '9' }

  predicate AllDigits(s: string) { forall i :: 0 <= i < |s| ==> IsDigit(s[i]) }

  predicate DigitsOrUnderscores(s: string) { forall i :: 0 <= i < |s| ==> IsDigit(s[i]) || s[i] == '_' }

  /** Two underscores in a row start at `s[i]`. */
  predicate DoubledAt(s: string, i: nat)
    requires i + 1 < |s|
  {
    s[i] == '_' && s[i + 1] == '_'
  }

  /** One or more digits, where each underscore stands between two digits (`1_000`, not `_1`, `1_` or `1__0`). */
  predicate IsDigitRun(s: string)
  {
    && s != [] && IsDigit(s[0]) && IsDigit(s[|s| - 1])
    && DigitsOrUnderscores(s)
    && forall i :: 0 <= i < |s| - 1 ==> !DoubledAt(s, i)
  }

  /** An optional sign followed by a run of digits. */
  predicate IsIntLiteral(s: string)
  {
    if s != [] && (s[0] == '-' || s[0] == '+') then IsDigitRun(s[1..]) else IsDigitRun(s)
  }

  /** The value of a string of decimal digits, most significant first; underscores are skipped. */
  function DigitsValue(s: string): nat
    requires DigitsOrUnderscores(s)
  {
    if s == [] then 0
    else if s[|s| - 1] == '_' then DigitsValue(s[..|s| - 1])
    else DigitsValue(s[..|s| - 1]) * 10 + (s[|s| - 1] as int - '0' as int)
  }

  /**
   * `int(s)` on an already stripped string: an optional sign and a run of
   * ASCII digits, possibly grouped by single underscores; anything else
   * raises ValueError (None here).
   */
  function ParseInt(s: string): (r: Option<int>)
    ensures r.Some? <==> IsIntLiteral(s)
    ensures r.Some? && r.value < 0 ==> s[0] == '-'
  {
    if s != [] && (s[0] == '-' || s[0] == '+') then
      var digits := s[1..];
      if IsDigitRun(digits) then
        var v: int := DigitsValue(digits);
        Some(if s[0] == '-' then -v else v)
      else None
    else if IsDigitRun(s) then Some(DigitsValue(s))
    else None
  }

  /** Underscores group digits. */
  lemma UnderscoreGrouping()
    ensures ParseInt("1_0") == Some(10)
  {
    var s := "1_0";
    assert IsDigitRun(s) by {
      assert !DoubledAt(s, 0) && !DoubledAt(s, 1);
    }
    assert s[..2] == "1_" && s[..2][..1] == "1" && s[..2][..1][..0] == "";
    assert DigitsValue("1") == 1;
    assert DigitsValue("1_") == 1;
  }

  /** An underscore may not lead, trail or double. */
  lemma UnderscoreMisplaced()
    ensures ParseInt("_1") == None && ParseInt("1_") == None && ParseInt("1__0") == None
  {
    DoubleUnderscore("1__0", 1);
  }

  /** Decimal digits of `n`, most significant first, with no leading zero. */
  function Decimal(n: nat): (r: string)
    ensures r != [] && AllDigits(r)
  {
    var d := ['0' + (n % 10) as char];
    if n < 10 then d else Decimal(n / 10) + d
  }

  /** `str(i)` for an integer. */
  function FormatInt(i: int): string
  {
    if i < 0 then "-" + Decimal(-i) else Decimal(i)
  }

  lemma {:induction false} DecimalValue(n: nat)
    ensures DigitsValue(Decimal(n)) == n
  {
    var d := ['0' + (n % 10) as char];
    if n >= 10 {
      DecimalValue(n / 10);
      var s := Decimal(n / 10) + d;
      assert s[..|s| - 1] == Decimal(n / 10);
    }
  }

  /** Two underscores in a row break a run of digits. */
  lemma DoubleUnderscore(s: string, i: nat)
    requires i + 1 < |s| && s[i] == '_' && s[i + 1] == '_'
    ensures !IsDigitRun(s)
  {
    assert DoubledAt(s, i);
  }

  /** A non-empty string of digits is a run of digits. */
  lemma DigitsAreRun(s: string)
    requires s != [] && AllDigits(s)
    ensures IsDigitRun(s)
  {
    forall i | 0 <= i < |s| - 1 ensures !DoubledAt(s, i) {
      assert IsDigit(s[i]);
    }
  }

  /** `int` reads back every integer `str` writes. */
  lemma ParseFormatRoundTrip(i: int)
    ensures ParseInt(FormatInt(i)) == Some(i)
  {
    if i < 0 {
      DecimalValue(-i);
      DigitsAreRun(Decimal(-i));
      assert FormatInt(i)[1..] == Decimal(-i);
    } else {
      DecimalValue(i);
      DigitsAreRun(Decimal(i));
      assert FormatInt(i)[0] != '-' && FormatInt(i)[0] != '+' by {
        assert AllDigits(Decimal(i));
      }
    }
  }

  // ---------------------------------------------------------------- rows

  /** What one CSV row of the data file means to the loop body. */
  datatype CsvLine =
    | Skipped                                     // not exactly three fields
    | BadAge                                      // three fields, but `int(age)` raises ValueError
    | Record(name: string, email: string, age: int) // stripped name and email, converted age

  /** `name, email, age = [x.strip() for x in row]` and `age = int(age)`, for a row of three fields. */
  function DecodeLine(fields: seq<string>): CsvLine
  {
    if |fields| != 3 then Skipped
    else
      match ParseInt(Strip(fields[2]))
      case None => BadAge
      case Some(age) => Record(Strip(fields[0]), Strip(fields[1]), age)
  }

  /** Every data row of the file, decoded. */
  function DecodeAll(lines: seq<seq<string>>): (r: seq<CsvLine>)
    ensures |r| == |lines|
  {
    if lines == [] then [] else [DecodeLine(lines[0])] + DecodeAll(lines[1..])
  }

  /** Data row `k` is decoded on its own. */
  lemma {:induction false} DecodeAllAt(lines: seq<seq<string>>, k: nat)
    requires k < |lines|
    ensures DecodeAll(lines)[k] == DecodeLine(lines[k])
  {
    if k > 0 {
      DecodeAllAt(lines[1..], k - 1);
    }
  }

  /** Why `insert_data` stopped early. */
  datatype SeedError =
    | ValueError(line: nat)        // `int(age)` failed on this data row; nothing catches it
    | DataError(line: nat)         // the INSERT of this data row was rejected: a value does not fit its column
    | IntegrityError(line: nat)    // the INSERT of this data row was rejected (duplicate `user_id`)

  /**
   * The table after the data rows processed so far, the data row index each
   * inserted row came from, and the error that stopped the loop, if any.
   */
  datatype Progress = Progress(rows: seq<UserRow>, sourceLines: seq<nat>, error: Option<SeedError>)

  predicate HasEmail(rows: seq<UserRow>, email: string)
  {
    exists i :: 0 <= i < |rows| && rows[i].email == email
  }

  predicate HasId(rows: seq<UserRow>, id: string)
  {
    exists i :: 0 <= i < |rows| && rows[i].userId == id
  }

  /** The range of the `age INT` column. */
  const IntMin: int := -0x8000_0000
  const IntMax: int := 0x7FFF_FFFF

  /**
   * The values fit the columns `name VARCHAR(255)`, `email VARCHAR(255)` and
   * `age INT`; MySQL's default strict SQL mode rejects an INSERT whose values
   * do not.
   */
  predicate FitsColumns(name: string, email: string, age: int)
  {
    |name| <= 255 && |email| <= 255 && IntMin <= age <= IntMax
  }

  /** One turn of the loop body, on data row `k` whose user_id would be `id`. */
  function SeedStep(p: Progress, line: CsvLine, k: nat, id: string): Progress
    requires p.error.None?
  {
    match line
    case Skipped => p
    case BadAge => p.(error := Some(ValueError(k)))
    case Record(name, email, age) =>
      if HasEmail(p.rows, email) then p
      else if !FitsColumns(name, email, age) then p.(error := Some(DataError(k)))
      else if HasId(p.rows, id) then p.(error := Some(IntegrityError(k)))
      else Progress(p.rows + [UserRow(id, name, email, age)], p.sourceLines + [k], None)
  }

  /** The loop over the first `n` decoded data rows, starting from the table `rows`; it stops at the first error. */
  function SeedPrefix(rows: seq<UserRow>, lines: seq<CsvLine>, n: nat, newId: nat -> string): Progress
    requires n <= |lines|
  {
    if n == 0 then Progress(rows, [], None)
    else
      var p := SeedPrefix(rows, lines, n - 1, newId);
      if p.error.Some? then p else SeedStep(p, lines[n - 1], n - 1, newId(n - 1))
  }

  // ---------------------------------------------------------------- table

  /** How `insert_data` ends. */
  datatype SeedOutcome =
    | Committed                    // every data row processed, then `commit`
    | FileMissing                  // FileNotFoundError printed; nothing executed
    | RolledBack(error: SeedError) // a database error printed, then `rollback`
    | Raised(escaped: Option<SeedError>) // an exception escapes: ValueError, or StopIteration (None) on an empty file

  /** The end of `insert_data`: how it ends, and the session's and the committed view of the table. */
  datatype SeedResult = SeedResult(outcome: SeedOutcome, rows: seq<UserRow>, committed: seq<UserRow>)

  /**
   * `insert_data` on a table whose session view is `rows` and whose committed
   * view is `committed`: a missing file changes nothing; an empty file raises
   * StopIteration at the header; otherwise the data rows are processed until
   * the first error, then the work is committed, left uncommitted (ValueError
   * escapes) or rolled back (database error).
   */
  function InsertDataSpec(rows: seq<UserRow>, committed: seq<UserRow>, file: Option<seq<seq<string>>>, newId: nat -> string): SeedResult
  {
    match file
    case None => SeedResult(FileMissing, rows, committed)
    case Some(csv) =>
      if csv == [] then SeedResult(Raised(None), rows, committed)
      else
        var p := SeedPrefix(rows, DecodeAll(csv[1..]), |csv| - 1, newId);
        match p.error
        case None => SeedResult(Committed, p.rows, p.rows)
        case Some(ValueError(_)) => SeedResult(Raised(p.error), p.rows, committed)
        case Some(e) => SeedResult(RolledBack(e), committed, committed)
  }

  /** The `user_data` table as one connection sees it. */
  class UserTable {
    /** The rows this session sees, its own uncommitted inserts included. */
    var rows: seq<UserRow>
    /** The rows as of the last commit. */
    var committed: seq<UserRow>

    constructor (rows: seq<UserRow>)
      ensures this.rows == rows && committed == rows
    {
      this.rows := rows;
      committed := rows;
    }

    /** `create_table`: DROP TABLE then CREATE TABLE; both commit implicitly. */
    method CreateTable()
      modifies this
      ensures rows == [] && committed == []
    {
      rows := [];
      committed := [];
    }

    /** `insert_data(connection, data)`. */
    method InsertData(file: Option<seq<seq<string>>>, newId: nat -> string) returns (outcome: SeedOutcome)
      modifies this
      ensures SeedResult(outcome, rows, committed) == InsertDataSpec(old(rows), old(committed), file, newId)
    {
      if file.None? {
        return FileMissing;
      }
      var csv := file.value;
      if csv == [] {
        return Raised(None);
      }
      var inserted, error := ProcessRows(csv[1..], newId);
      match error {
        case None =>
          committed := rows;
          outcome := Committed;
        case Some(ValueError(_)) =>
          outcome := Raised(error);
        case Some(e) =>
          rows := committed;
          outcome := RolledBack(e);
      }
    }

    /**
     * The `for row in csv_reader` loop of `insert_data` over the data rows,
     * up to the first exception; `inserted` holds the data row index of each
     * row it inserts.
     */
    method ProcessRows(lines: seq<seq<string>>, newId: nat -> string) returns (inserted: seq<nat>, error: Option<SeedError>)
      modifies this
      ensures Progress(rows, inserted, error) == SeedPrefix(old(rows), DecodeAll(lines), |lines|, newId)
      ensures committed == old(committed)
    {
      ghost var decoded := DecodeAll(lines);
      ghost var start := rows;
      inserted := [];
      var i := 0;
      while i < |lines|
        invariant 0 <= i <= |lines| && committed == old(committed)
        invariant SeedPrefix(start, decoded, i, newId) == Progress(rows, inserted, None)
      {
        inserted, error := ProcessRow(lines[i], i, newId(i), inserted);
        DecodeAllAt(lines, i);
        RowAdvances(start, decoded, i, newId, Progress(rows, inserted, error));
        if error.Some? {
          return;
        }
        i := i + 1;
      }
      error := None;
    }

    /**
     * The body of the `insert_data` loop for data row `k`, whose `user_id`
     * would be `userId`, up to where an exception leaves it.
     */
    method ProcessRow(fields: seq<string>, k: nat, userId: string, inserted: seq<nat>)
      returns (inserted': seq<nat>, error: Option<SeedError>)
      modifies this
      ensures Progress(rows, inserted', error) == SeedStep(Progress(old(rows), inserted, None), DecodeLine(fields), k, userId)
      ensures committed == old(committed)
    {
      inserted', error := inserted, None;
      if |fields| == 3 {
        var name, email, ageText := Strip(fields[0]), Strip(fields[1]), Strip(fields[2]);
        var age := ParseInt(ageText);
        if age.None? {
          return inserted, Some(ValueError(k));
        }
        var found := FindEmail(rows, email);
        if !found {
          if !FitsColumns(name, email, age.value) {
            return inserted, Some(DataError(k));
          }
          var clash := FindId(rows, userId);
          if clash {
            return inserted, Some(IntegrityError(k));
          }
          rows := rows + [UserRow(userId, name, email, age.value)];
          inserted' := inserted + [k];
        }
      }
    }
  }

  /** `SELECT user_id FROM user_data WHERE email = %s` found a row. */
  method FindEmail(rows: seq<UserRow>, email: string) returns (found: bool)
    ensures found == HasEmail(rows, email)
  {
    found := false;
    for i := 0 to |rows|
      invariant found == exists j :: 0 <= j < i && rows[j].email == email
    {
      if rows[i].email == email {
        found := true;
      }
    }
  }

  /** The primary key `user_id` is already taken. */
  method FindId(rows: seq<UserRow>, id: string) returns (found: bool)
    ensures found == HasId(rows, id)
  {
    found := false;
    for i := 0 to |rows|
      invariant found == exists j :: 0 <= j < i && rows[j].userId == id
    {
      if rows[i].userId == id {
        found := true;
      }
    }
  }

  // ---------------------------------------------------------------- properties

  /** One more data row, while no error has stopped the loop, is one more turn of its body. */
  lemma SeedPrefixStep(rows: seq<UserRow>, lines: seq<CsvLine>, i: nat, newId: nat -> string)
    requires i < |lines| && SeedPrefix(rows, lines, i, newId).error.None?
    ensures SeedPrefix(rows, lines, i + 1, newId) == SeedStep(SeedPrefix(rows, lines, i, newId), lines[i], i, newId(i))
  {
  }

  /**
   * The loop body on data row `i` takes the fold one row further; when it
   * raises, the fold has reached its final value.
   */
  lemma RowAdvances(rows: seq<UserRow>, lines: seq<CsvLine>, i: nat, newId: nat -> string, p: Progress)
    requires i < |lines| && SeedPrefix(rows, lines, i, newId).error.None?
    requires p == SeedStep(SeedPrefix(rows, lines, i, newId), lines[i], i, newId(i))
    ensures p == SeedPrefix(rows, lines, i + 1, newId)
    ensures p.error.Some? ==> p == SeedPrefix(rows, lines, |lines|, newId)
  {
    SeedPrefixStep(rows, lines, i, newId);
    if p.error.Some? {
      SeedStopsAtError(rows, lines, i + 1, |lines|, newId);
    }
  }

  /** `strip()` also cuts whitespace outside ASCII, such as the unit separator and the no-break space. */
  lemma StripsUnicodeSpace()
    ensures Strip("\U{1F}30\U{A0}") == "30"
  {
    var s := "\U{1F}30\U{A0}";
    assert SkipSpace(s, 0) == 1 && SkipSpaceBack(s, |s|) == 3;
    assert s[1..3] == "30";
  }

  /** A string that neither starts nor ends with whitespace is its own `strip()`. */
  lemma StripUnchanged(t: string)
    requires t != [] && !IsSpace(t[0]) && !IsSpace(t[|t| - 1])
    ensures Strip(t) == t
  {
    assert SkipSpace(t, 0) == 0 && SkipSpaceBack(t, |t|) == |t|;
  }

  /** Once the loop has stopped on an error, later data rows change nothing. */
  lemma {:induction false} SeedStopsAtError(rows: seq<UserRow>, lines: seq<CsvLine>, k: nat, n: nat, newId: nat -> string)
    requires k <= n <= |lines| && SeedPrefix(rows, lines, k, newId).error.Some?
    ensures SeedPrefix(rows, lines, n, newId) == SeedPrefix(rows, lines, k, newId)
    decreases n - k
  {
    if k < n {
      SeedStopsAtError(rows, lines, k + 1, n, newId);
    }
  }

  /**
   * `p` extends the table `rows` by appending only: each appended row is a
   * decoded record before `n` with the user_id drawn for it, and the data
   * rows they come from are in increasing order.
   */
  predicate AppendsInFileOrder(rows: seq<UserRow>, p: Progress, lines: seq<CsvLine>, n: nat, newId: nat -> string)
  {
    && |p.rows| == |rows| + |p.sourceLines|
    && p.rows[..|rows|] == rows
    && (forall t :: 0 <= t < |p.sourceLines| ==>
          var k := p.sourceLines[t];
          && k < n && k < |lines| && lines[k].Record?
          && p.rows[|rows| + t] == UserRow(newId(k), lines[k].name, lines[k].email, lines[k].age))
    && (forall s, t :: 0 <= s < t < |p.sourceLines| ==> p.sourceLines[s] < p.sourceLines[t])
  }

  /**
   * Seeding only appends, and every appended row is the stripped, parsed form
   * of a three-field data row, with the data rows in increasing order.
   */
  lemma {:induction false} SeedAppendsInFileOrder(rows: seq<UserRow>, lines: seq<CsvLine>, n: nat, newId: nat -> string)
    requires n <= |lines|
    ensures AppendsInFileOrder(rows, SeedPrefix(rows, lines, n, newId), lines, n, newId)
  {
    if n == 0 {
      assert rows[..|rows|] == rows;
    } else {
      SeedAppendsInFileOrder(rows, lines, n - 1, newId);
      var p := SeedPrefix(rows, lines, n - 1, newId);
      var q := SeedPrefix(rows, lines, n, newId);
      if q.sourceLines != p.sourceLines {
        assert q.rows == p.rows + [q.rows[|p.rows|]];
        assert q.rows[..|rows|] == p.rows[..|rows|];
        forall t | 0 <= t < |p.sourceLines|
          ensures q.rows[|rows| + t] == p.rows[|rows| + t] && q.sourceLines[t] == p.sourceLines[t]
        {
        }
      }
    }
  }

  predicate DistinctEmails(rows: seq<UserRow>)
  {
    forall i, j :: 0 <= i < j < |rows| ==> rows[i].email != rows[j].email
  }

  /**
   * No two rows of the table share an email after seeding, provided none did
   * before: the email check also sees rows inserted earlier in the same run.
   */
  lemma {:induction false} SeedKeepsEmailsDistinct(rows: seq<UserRow>, lines: seq<CsvLine>, n: nat, newId: nat -> string)
    requires n <= |lines| && DistinctEmails(rows)
    ensures DistinctEmails(SeedPrefix(rows, lines, n, newId).rows)
  {
    if n > 0 {
      SeedKeepsEmailsDistinct(rows, lines, n - 1, newId);
      var p := SeedPrefix(rows, lines, n - 1, newId);
      var q := SeedPrefix(rows, lines, n, newId);
      if q.rows != p.rows {
        var email := lines[n - 1].email;
        assert q.rows == p.rows + [q.rows[|p.rows|]] && q.rows[|p.rows|].email == email;
        assert !HasEmail(p.rows, email);
      }
    }
  }

  /**
   * Every data row that decodes to a record, before the loop stops, has its
   * email in the table afterwards: it was inserted or already there.
   */
  lemma {:induction false} SeedCoversValidRows(rows: seq<UserRow>, lines: seq<CsvLine>, n: nat, newId: nat -> string)
    requires n <= |lines|
    ensures var p := SeedPrefix(rows, lines, n, newId);
            p.error.None? ==>
              forall k :: 0 <= k < n && lines[k].Record? ==> HasEmail(p.rows, lines[k].email)
  {
    if n > 0 {
      SeedCoversValidRows(rows, lines, n - 1, newId);
      var p := SeedPrefix(rows, lines, n - 1, newId);
      var q := SeedPrefix(rows, lines, n, newId);
      if q.error.None? {
        assert p.error.None?;
        assert q.rows[..|p.rows|] == p.rows;
        forall k | 0 <= k < n && lines[k].Record? ensures HasEmail(q.rows, lines[k].email) {
          if k < n - 1 {
            var i :| 0 <= i < |p.rows| && p.rows[i].email == lines[k].email;
            assert q.rows[i] == p.rows[i];
          } else if q.rows != p.rows {
            assert q.rows[|q.rows| - 1].email == lines[k].email;
          }
        }
      }
    }
  }

  /** A data row whose age does not parse stops the loop there, before any later row is read. */
  lemma BadAgeStops(rows: seq<UserRow>, lines: seq<CsvLine>, k: nat, newId: nat -> string)
    requires k < |lines| && lines[k].BadAge? && SeedPrefix(rows, lines, k, newId).error.None?
    ensures SeedPrefix(rows, lines, |lines|, newId).error == Some(ValueError(k))
    ensures SeedPrefix(rows, lines, |lines|, newId).rows == SeedPrefix(rows, lines, k, newId).rows
  {
    SeedStopsAtError(rows, lines, k + 1, |lines|, newId);
  }

  predicate RowsFitColumns(rows: seq<UserRow>)
  {
    forall i :: 0 <= i < |rows| ==> FitsColumns(rows[i].name, rows[i].email, rows[i].age)
  }

  /** Every row seeding inserts fits the column types, so a table whose rows fit keeps fitting. */
  lemma {:induction false} SeedRowsFitColumns(rows: seq<UserRow>, lines: seq<CsvLine>, n: nat, newId: nat -> string)
    requires n <= |lines| && RowsFitColumns(rows)
    ensures RowsFitColumns(SeedPrefix(rows, lines, n, newId).rows)
  {
    if n > 0 {
      SeedRowsFitColumns(rows, lines, n - 1, newId);
      var p := SeedPrefix(rows, lines, n - 1, newId);
      var q := SeedPrefix(rows, lines, n, newId);
      if q.rows != p.rows {
        assert q.rows == p.rows + [q.rows[|p.rows|]];
      }
    }
  }

  /**
   * A new email whose row does not fit its columns (an age outside the INT
   * range, a name or email over 255 characters) makes the INSERT fail, and
   * the loop stops there with a database error.
   */
  lemma OversizedRowStops(rows: seq<UserRow>, lines: seq<CsvLine>, k: nat, newId: nat -> string)
    requires k < |lines|
    requires var p := SeedPrefix(rows, lines, k, newId);
             && p.error.None? && lines[k].Record? && !HasEmail(p.rows, lines[k].email)
             && !FitsColumns(lines[k].name, lines[k].email, lines[k].age)
    ensures SeedPrefix(rows, lines, |lines|, newId).error == Some(DataError(k))
  {
    SeedPrefixStep(rows, lines, k, newId);
    SeedStopsAtError(rows, lines, k + 1, |lines|, newId);
  }

  /** That database error rolls the whole run back: nothing of the file remains. */
  lemma OversizedRowRollsBack(rows: seq<UserRow>, committed: seq<UserRow>, csv: seq<seq<string>>, k: nat, newId: nat -> string)
    requires 0 < |csv| && k < |csv| - 1
    requires var lines := DecodeAll(csv[1..]);
             var p := SeedPrefix(rows, lines, k, newId);
             && p.error.None? && lines[k].Record? && !HasEmail(p.rows, lines[k].email)
             && !FitsColumns(lines[k].name, lines[k].email, lines[k].age)
    ensures InsertDataSpec(rows, committed, Some(csv), newId) == SeedResult(RolledBack(DataError(k)), committed, committed)
  {
    OversizedRowStops(rows, DecodeAll(csv[1..]), k, newId);
  }

  /**
   * The row `a,a@x.io,3000000000`, with the age written by `str`: the age
   * parses, but it is beyond the INT column's range.
   */
  lemma OutOfRangeAgeExample()
    ensures DecodeLine(["a", "a@x.io", FormatInt(3000000000)]) == Record("a", "a@x.io", 3000000000)
    ensures !FitsColumns("a", "a@x.io", 3000000000)
  {
    var t := FormatInt(3000000000);
    ParseFormatRoundTrip(3000000000);
    assert AllDigits(t);
    StripUnchanged(t);
    StripUnchanged("a");
    StripUnchanged("a@x.io");
  }

  /** The header line never reaches the table: `insert_data` does the same whatever it holds. */
  lemma HeaderNeverInserted(rows: seq<UserRow>, committed: seq<UserRow>, h1: seq<string>, h2: seq<string>,
                            body: seq<seq<string>>, newId: nat -> string)
    ensures InsertDataSpec(rows, committed, Some([h1] + body), newId)
         == InsertDataSpec(rows, committed, Some([h2] + body), newId)
  {
    assert ([h1] + body)[1..] == body;
    assert ([h2] + body)[1..] == body;
  }

  /**
   * Seeding a table whose emails are pairwise distinct leaves them pairwise
   * distinct, in the session's view and in the committed one, however it ends.
   */
  lemma InsertDataKeepsEmailsDistinct(rows: seq<UserRow>, committed: seq<UserRow>,
                                      file: Option<seq<seq<string>>>, newId: nat -> string)
    requires DistinctEmails(rows) && DistinctEmails(committed)
    ensures var r := InsertDataSpec(rows, committed, file, newId);
            DistinctEmails(r.rows) && DistinctEmails(r.committed)
  {
    if file.Some? && file.value != [] {
      var csv := file.value;
      SeedKeepsEmailsDistinct(rows, DecodeAll(csv[1..]), |csv| - 1, newId);
    }
  }
}
