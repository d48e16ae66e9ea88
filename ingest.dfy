/** Spreadsheet import (src/App.jsx, handleImport): the decoded sheet is a
    list of rows of cells whose first row is the header. Columns are found by
    words in the header, each later row with a name becomes a member, and the
    date of birth is read from an Excel serial number, a `dd/mm/yyyy` text or
    any other text. Any TypeError on the way abandons the whole import. */
module Ingest {
  import opened Text
  import opened Dates
  import opened Members

  // ---------------------------------------------------------------------------
  // Finding the columns

  datatype Column = NameColumn | DobColumn | GenderColumn | PositionColumn | UnitColumn | MaritalColumn

  /** The words that mark a column's header. */
  function Tokens(c: Column): seq<string> {
    match c
    case NameColumn => ["tên"]
    case DobColumn => ["sinh", "dob"]
    case GenderColumn => ["giới", "sex"]
    case PositionColumn => ["chức", "vị trí"]
    case UnitColumn => ["đơn vị", "phòng", "ban"]
    case MaritalColumn => ["hôn", "gia đình"]
  }

  /** A header text marks column `c` when one of its words occurs in it. */
  predicate Marks(h: string, c: Column) {
    ContainsAny(h, Tokens(c))
  }

  /** `h.toString().toLowerCase()` for a header cell. */
  function HeaderText(h: Cell): string {
    Lower(CellText(h))
  }

  /** No header from `from` up to `j` is empty or marks `c`. */
  predicate Unmarked(headers: seq<Cell>, c: Column, from: nat, j: nat)
    requires j <= |headers|
  {
    forall k :: from <= k < j ==> !headers[k].Empty? && !Marks(HeaderText(headers[k]), c)
  }

  /** `headers.findIndex(...)` from position `from` on: the first header that
      marks `c`, or -1. A hole in the header row (an empty cell) reached
      before a match makes the callback throw. */
  function FindColumn(headers: seq<Cell>, c: Column, from: nat): (r: Outcome<int>)
    requires from <= |headers|
    ensures r.Done? ==> r.value == -1 || from <= r.value < |headers|
    ensures r.Done? && r.value >= 0 ==> !headers[r.value].Empty? && Marks(HeaderText(headers[r.value]), c)
    ensures r.Done? ==> forall j :: from <= j < |headers| && (r.value == -1 || j < r.value) ==>
      !headers[j].Empty? && !Marks(HeaderText(headers[j]), c)
    ensures r.TypeError? ==> exists j :: from <= j < |headers| && headers[j].Empty? && Unmarked(headers, c, from, j)
    decreases |headers| - from
  {
    if from == |headers| then Done(-1)
    else if headers[from].Empty? then TypeError
    else if Marks(HeaderText(headers[from]), c) then Done(from)
    else
      var r := FindColumn(headers, c, from + 1);
      assert r.TypeError? ==> exists j :: from <= j < |headers| && headers[j].Empty? && Unmarked(headers, c, from, j) by {
        if r.TypeError? {
          var j :| from + 1 <= j < |headers| && headers[j].Empty? && Unmarked(headers, c, from + 1, j);
          assert Unmarked(headers, c, from, j);
        }
      }
      r
  }

  /** Where each field is read from; -1 for a column the header lacks. */
  datatype Columns = Columns(name: int, dob: int, gender: int, position: int, unit: int, marital: int)
  {
    function Index(c: Column): int {
      match c
      case NameColumn => name
      case DobColumn => dob
      case GenderColumn => gender
      case PositionColumn => position
      case UnitColumn => unit
      case MaritalColumn => marital
    }
  }

  /** The six searches, in the order the source runs them; the first that
      throws ends the import. */
  function FindColumns(headers: seq<Cell>): Outcome<Columns> {
    var name := FindColumn(headers, NameColumn, 0);
    var dob := FindColumn(headers, DobColumn, 0);
    var gender := FindColumn(headers, GenderColumn, 0);
    var position := FindColumn(headers, PositionColumn, 0);
    var unit := FindColumn(headers, UnitColumn, 0);
    var marital := FindColumn(headers, MaritalColumn, 0);
    if name.TypeError? || dob.TypeError? || gender.TypeError? || position.TypeError?
       || unit.TypeError? || marital.TypeError? then
      TypeError
    else
      Done(Columns(name.value, dob.value, gender.value, position.value, unit.value, marital.value))
  }

  /** The columns found are the six searches' answers, and the search fails
      exactly when one of them throws. */
  lemma FindColumnsAgree(headers: seq<Cell>, c: Column)
    ensures FindColumns(headers).Done? ==> FindColumn(headers, c, 0) == Done(FindColumns(headers).value.Index(c))
    ensures FindColumn(headers, c, 0).TypeError? ==> FindColumns(headers).TypeError?
    ensures FindColumns(headers).TypeError? ==> exists c': Column :: FindColumn(headers, c', 0).TypeError?
  {
  }

  /** A header row without holes never throws. */
  lemma FullHeaderFindsColumns(headers: seq<Cell>)
    requires forall j :: 0 <= j < |headers| ==> !headers[j].Empty?
    ensures FindColumns(headers).Done?
  {
    assert FindColumn(headers, NameColumn, 0).Done?;
    assert FindColumn(headers, DobColumn, 0).Done?;
    assert FindColumn(headers, GenderColumn, 0).Done?;
    assert FindColumn(headers, PositionColumn, 0).Done?;
    assert FindColumn(headers, UnitColumn, 0).Done?;
    assert FindColumn(headers, MaritalColumn, 0).Done?;
  }

  // ---------------------------------------------------------------------------
  // Reading a row

  /** `row[i]`: out of range (including -1) reads as undefined. */
  function CellAt(row: seq<Cell>, i: int): Cell {
    if 0 <= i < |row| then row[i] else Empty
  }

  /** Offset of the Excel serial of 1970-01-01. */
  const ExcelEpoch := 25569

  /** JavaScript time values are limited to 10^8 days either side of 1970-01-01. */
  const MaxDays := 100000000

  /** `new Date(Math.round((serial - 25569) * 86400 * 1000))` for an integer serial. */
  function FromSerial(n: int): (d: Dob)
    ensures d.Valid? <==> -MaxDays <= n - ExcelEpoch <= MaxDays
    ensures d.Valid? ==> EpochDay(d.date) == n - ExcelEpoch
  {
    if -MaxDays <= n - ExcelEpoch <= MaxDays then Valid(FromEpochDay(n - ExcelEpoch)) else Invalid
  }

  /** Every day in range has exactly one serial, the day number shifted by 25569. */
  lemma SerialRoundTrip(d: Day)
    requires -MaxDays <= EpochDay(d) <= MaxDays
    ensures FromSerial(EpochDay(d) + ExcelEpoch) == Valid(d)
  {
    FromEpochDayInverse(d);
  }

  /** Serial 25569 is 1970-01-01. */
  lemma SerialOfEpoch()
    ensures FromSerial(ExcelEpoch) == Valid(Date(1970, 1, 1))
  {
    SerialRoundTrip(Date(1970, 1, 1));
  }

  /** Serial 44000 is 18 June 2020: 18431 days after 1970-01-01, counted
      with the closed form of the days before 2020. */
  lemma SerialIn2020()
    ensures FromSerial(44000) == Valid(Date(2020, 6, 18))
  {
    var d: Day := Date(2020, 6, 18);
    DaysBefore2020();
    assert DaysBeforeMonth(2020, 6) == 152;
    assert EpochDay(d) == 18431;
    SerialRoundTrip(d);
  }

  /** The date-of-birth cell: a number is an Excel serial; a text of three
      `/`-separated parts is reordered from day/month/year to year-month-day
      before parsing; other text is parsed as it is; anything else leaves the
      placeholder `new Date()`, today. */
  function ResolveDob(raw: Cell, now: Day, parse: string -> Dob): Dob {
    match raw
    case Number(n) => FromSerial(n)
    case Str(s) =>
      var parts := Split(s, '/');
      if |parts| == 3 then parse(parts[2] + "-" + parts[1] + "-" + parts[0]) else parse(s)
    case Empty => Valid(now)
  }

  /** A `dd/mm/yyyy` text is parsed as `yyyy-mm-dd`. */
  lemma DayMonthYear(d: string, m: string, y: string, now: Day, parse: string -> Dob)
    requires '/' !in d && '/' !in m && '/' !in y
    ensures ResolveDob(Str(d + "/" + m + "/" + y), now, parse) == parse(y + "-" + m + "-" + d)
  {
    var parts := [d, m, y];
    assert parts[1..][1..] == [y];
    assert Join(parts[1..], '/') == m + "/" + y;
    assert Join(parts, '/') == d + "/" + (m + "/" + y);
    assert d + "/" + (m + "/" + y) == d + "/" + m + "/" + y;
    SplitJoin(parts, '/');
  }

  /** A number is read as a serial, a text without exactly two `/` goes to
      the parser as it is, and a missing cell keeps today. */
  lemma ResolveDobCases(raw: Cell, now: Day, parse: string -> Dob)
    ensures raw.Empty? ==> ResolveDob(raw, now, parse) == Valid(now)
    ensures raw.Number? ==> ResolveDob(raw, now, parse) == FromSerial(raw.value)
    ensures raw.Str? && Count(raw.text, '/') != 2 ==> ResolveDob(raw, now, parse) == parse(raw.text)
  {
  }

  /** What one row yields. */
  datatype RowResult = Skipped | Built(member: Member) | Threw

  /** One turn of the import loop: a row whose name cell is falsy is skipped;
      any other row is built into a member with the given id, or throws. */
  function RowMember(row: seq<Cell>, c: Columns, id: int, now: Day, parse: string -> Dob): (r: RowResult)
    ensures r.Skipped? <==> Falsy(CellAt(row, c.name))
    ensures r.Threw? <==> (!Falsy(CellAt(row, c.name)) &&
      (CellAt(row, c.name).Number? || (CellAt(row, c.unit).Number? && !Falsy(CellAt(row, c.unit)))))
    ensures r.Built? ==> r.member.id == id && r.member.dob == ResolveDob(CellAt(row, c.dob), now, parse)
  {
    var name := CellAt(row, c.name);
    if Falsy(name) then Skipped
    else
      match NewMember(id, name, ResolveDob(CellAt(row, c.dob), now, parse), CellAt(row, c.gender),
                      CellAt(row, c.position), CellAt(row, c.marital), CellAt(row, c.unit))
      case Done(m) => Built(m)
      case TypeError => Threw
  }

  /** Every field of `m` whose column is missing holds that field's default. */
  predicate TakesDefaults(m: Member, c: Columns, now: Day) {
    (c.unit == -1 ==> m.unit == DefaultUnit) &&
    (c.dob == -1 ==> m.dob == Valid(now)) &&
    (c.gender == -1 ==> m.gender == Male) &&
    (c.position == -1 ==> m.position == Staff) &&
    (c.marital == -1 ==> m.marital == Single)
  }

  /** A field whose column is missing takes its default. */
  lemma MissingFieldsDefault(row: seq<Cell>, c: Columns, id: int, now: Day, parse: string -> Dob)
    requires RowMember(row, c, id, now, parse).Built?
    ensures TakesDefaults(RowMember(row, c, id, now, parse).member, c, now)
  {
  }

  /** A row without a date of birth is imported as born today, so it has its
      birthday today and is aged 0. */
  lemma NoDobBornToday(row: seq<Cell>, c: Columns, id: int, now: Day, parse: string -> Dob)
    requires CellAt(row, c.dob) == Empty
    requires RowMember(row, c, id, now, parse).Built?
    ensures RowMember(row, c, id, now, parse).member.IsBirthdayToday(now)
    ensures RowMember(row, c, id, now, parse).member.Age(now) == 0
  {
  }

  // ---------------------------------------------------------------------------
  // The import loop

  /** The loop's step for row i, with the columns found: `clock(i)` is
      `Date.now()` when row i is read, so row i's id is `clock(i) + i`. */
  function RowReader(c: Columns, clock: int -> int, now: Day, parse: string -> Dob): (int, seq<Cell>) -> RowResult {
    (i: int, row: seq<Cell>) => RowMember(row, c, clock(i) + i, now, parse)
  }

  /** What `read` yields for rows 1 .. |rows|-1, in order. */
  function Results(rows: seq<seq<Cell>>, read: (int, seq<Cell>) -> RowResult): (r: seq<RowResult>)
    requires |rows| >= 1
    ensures |r| == |rows| - 1
  {
    seq(|rows| - 1, k requires 0 <= k < |rows| - 1 => read(k + 1, rows[k + 1]))
  }

  /** What the rows after the header yield. */
  function RowResults(rows: seq<seq<Cell>>, c: Columns, clock: int -> int, now: Day,
                      parse: string -> Dob): (r: seq<RowResult>)
    requires |rows| >= 1
    ensures |r| == |rows| - 1
    ensures forall k :: 0 <= k < |r| ==> r[k] == RowMember(rows[k + 1], c, clock(k + 1) + k + 1, now, parse)
  {
    Results(rows, RowReader(c, clock, now, parse))
  }

  /** The members pushed while going through `results`; the first row that
      throws fails the whole import. */
  function Collect(results: seq<RowResult>): Outcome<seq<Member>> {
    if results == [] then Done([])
    else
      match Collect(results[..|results| - 1])
      case TypeError => TypeError
      case Done(ms) =>
        match results[|results| - 1]
        case Skipped => Done(ms)
        case Built(m) => Done(ms + [m])
        case Threw => TypeError
  }

  /** Collecting one more row result. */
  lemma CollectStep(p: seq<RowResult>, x: RowResult)
    ensures Collect(p + [x]) ==
      match Collect(p)
      case TypeError => TypeError
      case Done(ms) =>
        match x
        case Skipped => Done(ms)
        case Built(m) => Done(ms + [m])
        case Threw => TypeError
  {
    assert (p + [x])[..|p|] == p;
  }

  /** The import of a decoded sheet: fewer than two rows import nothing. */
  function Imported(rows: seq<seq<Cell>>, clock: int -> int, now: Day, parse: string -> Dob): Outcome<seq<Member>> {
    if |rows| < 2 then Done([])
    else
      match FindColumns(rows[0])
      case TypeError => TypeError
      case Done(c) => Collect(RowResults(rows, c, clock, now, parse))
  }

  /** handleImport after decoding: give up on fewer than two rows, find the
      columns, then read the rows. */
  method Import(rows: seq<seq<Cell>>, clock: int -> int, now: Day, parse: string -> Dob)
    returns (r: Outcome<seq<Member>>)
    ensures r == Imported(rows, clock, now, parse)
  {
    if |rows| < 2 {
      return Done([]);
    }
    var columns := FindColumns(rows[0]);
    if columns.TypeError? {
      return TypeError;
    }
    r := ReadRows(rows, RowReader(columns.value, clock, now, parse));
  }

  /** The loop of handleImport: push a member for every row `read` builds,
      in row order; a row that throws abandons the import. */
  method ReadRows(rows: seq<seq<Cell>>, read: (int, seq<Cell>) -> RowResult) returns (r: Outcome<seq<Member>>)
    requires |rows| >= 1
    ensures r == Collect(Results(rows, read))
  {
    ghost var results := Results(rows, read);
    var newMembers: seq<Member> := [];
    var i := 1;
    while i < |rows|
      invariant 1 <= i <= |rows|
      invariant Collect(results[..i - 1]) == Done(newMembers)
    {
      var result := read(i, rows[i]);
      assert results[..i] == results[..i - 1] + [result];
      CollectStep(results[..i - 1], result);
      if result.Threw? {
        FailureSticks(results, i);
        return TypeError;
      }
      if result.Built? {
        newMembers := newMembers + [result.member];
      }
      i := i + 1;
    }
    assert results[..i - 1] == results;
    return Done(newMembers);
  }

  /** Once a row has thrown, the import has failed whatever follows. */
  lemma {:induction false} FailureSticks(results: seq<RowResult>, k: nat)
    requires k <= |results|
    requires Collect(results[..k]).TypeError?
    ensures Collect(results).TypeError?
    decreases |results|
  {
    if k < |results| {
      var p := results[..|results| - 1];
      assert p[..k] == results[..k];
      FailureSticks(p, k);
    } else {
      assert results[..k] == results;
    }
  }

  // ---------------------------------------------------------------------------
  // What the import promises

  /** The positions in `results` of the rows that were built, in order. */
  function BuiltAt(results: seq<RowResult>): (s: seq<nat>)
    ensures |s| <= |results|
    ensures forall j :: 0 <= j < |s| ==> s[j] < |results| && results[s[j]].Built?
    ensures forall j, l :: 0 <= j < l < |s| ==> s[j] < s[l]
    ensures forall k :: 0 <= k < |results| && results[k].Built? ==> k in s
    ensures (forall k :: 0 <= k < |results| ==> results[k].Skipped?) ==> s == []
  {
    if results == [] then []
    else
      var p := results[..|results| - 1];
      assert forall k :: 0 <= k < |p| ==> p[k] == results[k];
      BuiltAt(p) + (if results[|results| - 1].Built? then [|results| - 1] else [])
  }

  /** Collecting fails exactly when some row throws. */
  lemma {:induction false} CollectFails(results: seq<RowResult>)
    ensures Collect(results).TypeError? <==> exists k :: 0 <= k < |results| && results[k].Threw?
  {
    if results != [] {
      var n := |results|;
      var p := results[..n - 1];
      CollectFails(p);
      if Collect(p).TypeError? {
        var k :| 0 <= k < |p| && p[k].Threw?;
        assert results[k] == p[k];
      } else if !results[n - 1].Threw? {
        forall k | 0 <= k < n ensures !results[k].Threw? {
          if k < n - 1 { assert results[k] == p[k]; }
        }
      }
    }
  }

  /** Collecting without failure yields the built members, one per built row
      and in order. */
  lemma {:induction false} CollectBuilt(results: seq<RowResult>)
    requires Collect(results).Done?
    ensures |Collect(results).value| == |BuiltAt(results)|
    ensures forall j :: 0 <= j < |BuiltAt(results)| ==> results[BuiltAt(results)[j]] == Built(Collect(results).value[j])
  {
    if results != [] {
      var n := |results|;
      var p := results[..n - 1];
      CollectBuilt(p);
      var ms, sp := Collect(p).value, BuiltAt(p);
      var tail := if results[n - 1].Built? then [n - 1] else [];
      assert BuiltAt(results) == sp + tail;
      match results[n - 1] {
        case Skipped =>
          assert Collect(results).value == ms;
        case Built(m) =>
          assert Collect(results).value == ms + [m];
        case Threw =>
      }
      forall j | 0 <= j < |sp| ensures results[sp[j]] == p[sp[j]] {
      }
    }
  }

  /** The members read from the rows come from the rows with a name, one
      each and in row order: row i gives its member with id `clock(i) + i`. */
  lemma ReadFromNamedRows(rows: seq<seq<Cell>>, c: Columns, clock: int -> int, now: Day, parse: string -> Dob)
    requires |rows| >= 1 && Collect(RowResults(rows, c, clock, now, parse)).Done?
    ensures var ms, s := Collect(RowResults(rows, c, clock, now, parse)).value, BuiltAt(RowResults(rows, c, clock, now, parse));
      |ms| == |s| <= |rows| - 1 &&
      (forall j :: 0 <= j < |s| ==> RowMember(rows[s[j] + 1], c, clock(s[j] + 1) + s[j] + 1, now, parse) == Built(ms[j]))
  {
    CollectBuilt(RowResults(rows, c, clock, now, parse));
  }

  /** Exactly the rows with a name are built, when no row throws. */
  lemma NamedRowsBuilt(rows: seq<seq<Cell>>, c: Columns, clock: int -> int, now: Day, parse: string -> Dob)
    requires |rows| >= 1 && Collect(RowResults(rows, c, clock, now, parse)).Done?
    ensures var s := BuiltAt(RowResults(rows, c, clock, now, parse));
      forall i :: 1 <= i < |rows| ==> (!Falsy(CellAt(rows[i], c.name)) <==> i - 1 in s)
  {
    var results := RowResults(rows, c, clock, now, parse);
    var s := BuiltAt(results);
    CollectFails(results);
    forall i | 1 <= i < |rows| ensures !Falsy(CellAt(rows[i], c.name)) <==> i - 1 in s {
      var r := results[i - 1];
      assert r == RowMember(rows[i], c, clock(i) + i, now, parse);
      assert !r.Threw?;
      if i - 1 in s {
        var j :| 0 <= j < |s| && s[j] == i - 1;
        assert r.Built?;
      }
    }
  }

  /** Row i's member has id `clock(i) + i`. */
  lemma RowResultIds(rows: seq<seq<Cell>>, c: Columns, clock: int -> int, now: Day, parse: string -> Dob)
    requires |rows| >= 1
    ensures var results := RowResults(rows, c, clock, now, parse);
      forall k :: 0 <= k < |results| && results[k].Built? ==> results[k].member.id == clock(k + 1) + k + 1
  {
    var results := RowResults(rows, c, clock, now, parse);
    forall k | 0 <= k < |results| && results[k].Built? ensures results[k].member.id == clock(k + 1) + k + 1 {
      assert results[k] == RowMember(rows[k + 1], c, clock(k + 1) + k + 1, now, parse);
    }
  }

  /** Member ids increase in row order while the clock does not go back. */
  lemma ReadIdsIncrease(rows: seq<seq<Cell>>, c: Columns, clock: int -> int, now: Day, parse: string -> Dob)
    requires forall i, j :: i <= j ==> clock(i) <= clock(j)
    requires |rows| >= 1 && Collect(RowResults(rows, c, clock, now, parse)).Done?
    ensures var ms := Collect(RowResults(rows, c, clock, now, parse)).value;
      forall j, l :: 0 <= j < l < |ms| ==> ms[j].id < ms[l].id
  {
    var results := RowResults(rows, c, clock, now, parse);
    var ms := Collect(results).value;
    var s := BuiltAt(results);
    CollectBuilt(results);
    RowResultIds(rows, c, clock, now, parse);
    forall j, l | 0 <= j < l < |ms| ensures ms[j].id < ms[l].id {
      assert results[s[j]] == Built(ms[j]) && results[s[l]] == Built(ms[l]);
      assert s[j] < s[l];
      assert clock(s[j] + 1) <= clock(s[l] + 1);
    }
  }

  /** Without a "tên" header every row reads its name as undefined, so no row
      is read into a member. */
  lemma NoNameColumnReadsNothing(rows: seq<seq<Cell>>, c: Columns, clock: int -> int, now: Day, parse: string -> Dob)
    requires |rows| >= 1 && c.name == -1
    ensures Collect(RowResults(rows, c, clock, now, parse)) == Done([])
  {
    var results := RowResults(rows, c, clock, now, parse);
    forall k | 0 <= k < |results| ensures results[k].Skipped? {
      assert results[k] == RowMember(rows[k + 1], c, clock(k + 1) + k + 1, now, parse);
    }
    CollectFails(results);
    CollectBuilt(results);
  }

  /** In every row, a field whose column is missing takes its default. */
  lemma RowResultDefaults(rows: seq<seq<Cell>>, c: Columns, clock: int -> int, now: Day, parse: string -> Dob)
    requires |rows| >= 1
    ensures var results := RowResults(rows, c, clock, now, parse);
      forall k :: 0 <= k < |results| && results[k].Built? ==> TakesDefaults(results[k].member, c, now)
  {
    var results := RowResults(rows, c, clock, now, parse);
    forall k | 0 <= k < |results| && results[k].Built?
      ensures TakesDefaults(results[k].member, c, now)
    {
      var id := clock(k + 1) + k + 1;
      assert results[k] == RowMember(rows[k + 1], c, clock(k + 1) + k + 1, now, parse);
      MissingFieldsDefault(rows[k + 1], c, id, now, parse);
    }
  }

  /** A column the header lacks reads as undefined in every row, so each
      member read takes that field's default. */
  lemma MissingColumnsDefault(rows: seq<seq<Cell>>, c: Columns, clock: int -> int, now: Day, parse: string -> Dob)
    requires |rows| >= 1 && Collect(RowResults(rows, c, clock, now, parse)).Done?
    ensures forall m <- Collect(RowResults(rows, c, clock, now, parse)).value :: TakesDefaults(m, c, now)
  {
    var results := RowResults(rows, c, clock, now, parse);
    var ms := Collect(results).value;
    var s := BuiltAt(results);
    CollectBuilt(results);
    RowResultDefaults(rows, c, clock, now, parse);
    forall j | 0 <= j < |ms| ensures TakesDefaults(ms[j], c, now) {
      assert results[s[j]] == Built(ms[j]);
    }
  }

  /** An import reads the rows with the columns the header gives; fewer than
      two rows, or a header that throws, import nothing. */
  lemma ImportedReadsRows(rows: seq<seq<Cell>>, clock: int -> int, now: Day, parse: string -> Dob)
    ensures |rows| < 2 ==> Imported(rows, clock, now, parse) == Done([])
    ensures |rows| >= 2 && FindColumns(rows[0]).TypeError? ==> Imported(rows, clock, now, parse).TypeError?
    ensures |rows| >= 2 && FindColumns(rows[0]).Done? ==>
      Imported(rows, clock, now, parse) == Collect(RowResults(rows, FindColumns(rows[0]).value, clock, now, parse))
  {
  }
}
