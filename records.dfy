/** The table of calculated students behind the "Add to Table", "Remove Selected",
    double-click and "Export CSV" actions: the rows it holds, how a row is built from the
    form, how a row is loaded back into the form, and the CSV text the table is written as. */
module Records {
  import opened JavaStrings
  import opened Grading

  /** The column titles of the table, which are also the CSV header fields. */
  const Columns: seq<string> := ["Name", "Math", "Physics", "Chemistry", "English", "Computer", "Total", "Percentage", "Grade"]

  /** The columns are the name, one column per subject in the order of the mark fields,
      and the three computed columns. */
  lemma ColumnsFollowSubjects()
    ensures Columns == ["Name"] + Subjects + ["Total", "Percentage", "Grade"]
    ensures |Columns| == NumSubjects + 4
  {
  }

  /** A cell of the table as the exporter sees it: a null, a String or an Integer. */
  datatype Cell = Null | Text(s: string) | Number(n: int)

  /** What the exporter prints for one cell: the empty text for null, toString otherwise. */
  function CellText(c: Cell): string {
    match c
    case Null => ""
    case Text(s) => s
    case Number(n) => IntToString(n)
  }

  /** One row of the table: the trimmed name, the five marks, the total, the percentage
      text and the grade. */
  datatype Row = Row(name: string, marks: seq<int>, total: int, percentText: string, grade: Grade)

  /** The row added for a name and validated marks. */
  function MakeRow(name: string, marks: seq<int>): (row: Row)
    requires |marks| == NumSubjects && ValidMarks(marks)
    ensures row.name == name && row.marks == marks
    ensures row.total == Sum(marks) && 0 <= row.total <= NumSubjects * MaxMark
    ensures row.percentText == PercentText(row.total) && ReadFixed2(row.percentText) == Some(row.total * 20)
    ensures row.grade == ComputeGrade(row.total as real / 5.0)
  {
    var r := Compute(marks);
    Row(name, marks, r.total, r.percentText, r.grade)
  }

  /** A row as addToTable builds it: a non-empty trimmed name and five valid marks, with
      the total, percentage text and grade derived from them. */
  predicate WellFormed(row: Row) {
    && row.name != []
    && Trim(row.name) == row.name
    && |row.marks| == NumSubjects
    && ValidMarks(row.marks)
    && row == MakeRow(row.name, row.marks)
  }

  /** The cells of a row, in column order: name, each mark, total, percentage text, grade. */
  function Cells(row: Row): (cells: seq<Cell>)
    ensures |cells| == |row.marks| + 4
    ensures cells[0] == Text(row.name)
    ensures forall k :: 0 <= k < |row.marks| ==> cells[1 + k] == Number(row.marks[k])
    ensures var n := |row.marks|;
      cells[n + 1] == Number(row.total) && cells[n + 2] == Text(row.percentText) && cells[n + 3] == Text(GradeName(row.grade))
  {
    [Text(row.name)] + seq(|row.marks|, k requires 0 <= k < |row.marks| => Number(row.marks[k]))
      + [Number(row.total), Text(row.percentText), Text(GradeName(row.grade))]
  }

  /** The printed text of each cell. */
  function Texts(cells: seq<Cell>): (texts: seq<string>)
    ensures |texts| == |cells|
    ensures forall k :: 0 <= k < |cells| ==> texts[k] == CellText(cells[k])
  {
    seq(|cells|, k requires 0 <= k < |cells| => CellText(cells[k]))
  }

  function RowTexts(row: Row): seq<string> {
    Texts(Cells(row))
  }

  // ---------------------------------------------------------------------------
  // Removal and loading back into the form

  /** DefaultTableModel.removeRow: the row at `i` goes, the rows after it move up by one. */
  function RemoveAt(rows: seq<Row>, i: nat): (r: seq<Row>)
    requires i < |rows|
    ensures |r| == |rows| - 1
    ensures forall k :: 0 <= k < i ==> r[k] == rows[k]
    ensures forall k :: i <= k < |r| ==> r[k] == rows[k + 1]
  {
    rows[..i] + rows[i + 1..]
  }

  /** What loadRowToForm puts on screen: the name and mark fields, and the three labels. */
  datatype Display = Display(form: Form, totalLabel: string, percentLabel: string, gradeLabel: string)

  /** The form fields a row is loaded into: the name, and String.valueOf of each mark. */
  function RowToForm(row: Row): (form: Form)
    ensures form.nameText == row.name && |form.markTexts| == |row.marks|
    ensures forall k :: 0 <= k < |row.marks| ==> form.markTexts[k] == IntToString(row.marks[k])
  {
    Form(row.name, seq(|row.marks|, k requires 0 <= k < |row.marks| => IntToString(row.marks[k])))
  }

  /** The text of a valid mark is accepted by the field check as that same mark. */
  lemma MarkTextAccepted(m: int)
    requires 0 <= m <= MaxMark
    ensures CheckMark(IntToString(m)) == Accepted(m)
  {
    NatToStringTrimmed(m);
    ParseIntToString(m);
  }

  /** Loading a row into the form and calculating again accepts the form, recovers the
      row's marks, and rebuilds exactly the stored row. */
  lemma ReloadRecomputes(row: Row)
    requires WellFormed(row)
    ensures var form := RowToForm(row);
      && Validate(form) == Ok(row.marks)
      && MakeRow(Trim(form.nameText), row.marks) == row
  {
    var form := RowToForm(row);
    forall k | 0 <= k < NumSubjects
      ensures CheckMark(form.markTexts[k]) == Accepted(row.marks[k])
    {
      MarkTextAccepted(row.marks[k]);
    }
    ValidateReportsFirstFailure(form);
  }

  // ---------------------------------------------------------------------------
  // CSV text

  /** The CSV line of one row: its cell texts joined by commas, nothing quoted or escaped. */
  function CsvLine(row: Row): string {
    Join(RowTexts(row), ',')
  }

  function CsvLines(rows: seq<Row>): (lines: seq<string>)
    ensures |lines| == |rows|
    ensures forall k :: 0 <= k < |rows| ==> lines[k] == CsvLine(rows[k])
  {
    seq(|rows|, k requires 0 <= k < |rows| => CsvLine(rows[k]))
  }

  lemma CsvLinesStep(rows: seq<Row>, r: nat)
    requires r < |rows|
    ensures var lines := [Join(Columns, ',')] + CsvLines(rows[..r + 1]);
      lines[..|lines| - 1] == [Join(Columns, ',')] + CsvLines(rows[..r])
      && lines[|lines| - 1] == CsvLine(rows[r])
  {
    var lines := [Join(Columns, ',')] + CsvLines(rows[..r + 1]);
    assert lines[..|lines| - 1] == [Join(Columns, ',')] + CsvLines(rows[..r]);
  }

  /** The whole file: the header line and one line per row, each ended by a line separator. */
  function CsvText(rows: seq<Row>): string {
    Terminated([Join(Columns, ',')] + CsvLines(rows), '\n')
  }

  lemma DigitsPlain(s: string)
    requires AllDigits(s)
    ensures ',' !in s && '\n' !in s
  {
    assert forall k :: 0 <= k < |s| ==> s[k] != ',' && s[k] != '\n';
  }

  /** No cell text of a row other than the name contains a comma or a line break when its
      marks are valid and its percentage text is that of its total: marks and total are
      digits, the percentage is digits and a point, the grade a letter and perhaps a plus. */
  lemma NumericTextsPlain(row: Row)
    requires |row.marks| == NumSubjects && ValidMarks(row.marks)
    requires row.total >= 0 && row.percentText == PercentText(row.total)
    ensures forall k :: 1 <= k < |Columns| ==> ',' !in RowTexts(row)[k] && '\n' !in RowTexts(row)[k]
  {
    var texts := RowTexts(row);
    var cells := Cells(row);
    forall k | 1 <= k < |Columns|
      ensures ',' !in texts[k] && '\n' !in texts[k]
    {
      assert texts[k] == CellText(cells[k]);
      if k <= NumSubjects {
        var m := row.marks[k - 1];
        DigitsPlain(NatToString(m));
      } else if k == 6 {
        DigitsPlain(NatToString(row.total));
      } else if k == 7 {
        PercentTextExact(row.total);
        var w := NatToString(row.total / 5);
        var f := TwoDigits((row.total % 5) * 20);
        DigitsPlain(w);
        DigitsPlain(f);
        assert row.percentText == w + "." + f;
      } else {
        assert texts[k] == GradeName(row.grade);
      }
    }
  }

  /** The header fields contain neither a comma nor a line break. */
  lemma ColumnsPlain(c: char)
    requires c == ',' || c == '\n'
    ensures forall k :: 0 <= k < |Columns| ==> c !in Columns[k]
  {
  }

  /** The line of a row whose name has no comma and no line break has no line break, and
      splits on commas into exactly the row's cell texts. */
  lemma LineReadsBack(row: Row)
    requires WellFormed(row)
    requires ',' !in row.name && '\n' !in row.name
    ensures '\n' !in CsvLine(row)
    ensures SplitOn(CsvLine(row), ',') == RowTexts(row)
    ensures |SplitOn(CsvLine(row), ',')| == |Columns|
  {
    RowTextsPlain(row);
    PlainFieldsReadBack(RowTexts(row));
  }

  /** With a plain name, no cell text of the row contains a comma or a line break. */
  lemma RowTextsPlain(row: Row)
    requires WellFormed(row)
    requires ',' !in row.name && '\n' !in row.name
    ensures |RowTexts(row)| == |Columns|
    ensures forall k :: 0 <= k < |RowTexts(row)| ==> ',' !in RowTexts(row)[k] && '\n' !in RowTexts(row)[k]
  {
    var texts := RowTexts(row);
    assert row.total >= 0 && row.percentText == PercentText(row.total);
    NumericTextsPlain(row);
    forall k | 0 <= k < |texts|
      ensures ',' !in texts[k] && '\n' !in texts[k]
    {
      if k == 0 {
        assert texts[0] == row.name;
      }
    }
  }

  /** Fields without commas and line breaks, joined by commas, make one line that splits
      back into them. */
  lemma PlainFieldsReadBack(fields: seq<string>)
    requires |fields| >= 1
    requires forall k :: 0 <= k < |fields| ==> ',' !in fields[k] && '\n' !in fields[k]
    ensures '\n' !in Join(fields, ',') && SplitOn(Join(fields, ','), ',') == fields
  {
    JoinAvoids(fields, ',', '\n');
    SplitJoin(fields, ',');
  }

  /** Reading the CSV text back line by line and splitting each line on commas gives the
      header and every row's cell texts, provided no name contains a comma or a line break
      (the exporter does not quote fields). */
  lemma CsvReadsBack(rows: seq<Row>)
    requires forall k :: 0 <= k < |rows| ==> WellFormed(rows[k])
    requires forall k :: 0 <= k < |rows| ==> ',' !in rows[k].name && '\n' !in rows[k].name
    ensures var lines := ReadLines(CsvText(rows), '\n');
      && |lines| == |rows| + 1
      && SplitOn(lines[0], ',') == Columns
      && forall k :: 0 <= k < |rows| ==> SplitOn(lines[k + 1], ',') == RowTexts(rows[k])
  {
    var lines := [Join(Columns, ',')] + CsvLines(rows);
    HeaderReadsBack();
    RowsReadBack(rows);
    forall k | 0 <= k < |lines|
      ensures '\n' !in lines[k]
    {
      if k > 0 {
        assert lines[k] == CsvLine(rows[k - 1]);
      }
    }
    ReadLinesTerminated(lines, '\n');
  }

  lemma HeaderReadsBack()
    ensures '\n' !in Join(Columns, ',') && SplitOn(Join(Columns, ','), ',') == Columns
  {
    ColumnsPlain('\n');
    ColumnsPlain(',');
    PlainFieldsReadBack(Columns);
  }

  lemma RowsReadBack(rows: seq<Row>)
    requires forall k :: 0 <= k < |rows| ==> WellFormed(rows[k])
    requires forall k :: 0 <= k < |rows| ==> ',' !in rows[k].name && '\n' !in rows[k].name
    ensures forall k :: 0 <= k < |rows| ==> '\n' !in CsvLine(rows[k]) && SplitOn(CsvLine(rows[k]), ',') == RowTexts(rows[k])
  {
    forall k | 0 <= k < |rows|
      ensures '\n' !in CsvLine(rows[k]) && SplitOn(CsvLine(rows[k]), ',') == RowTexts(rows[k])
    {
      LineReadsBack(rows[k]);
    }
  }

  /** A comma inside a name is written as is: a name `a,b` makes its line split into ten
      fields, `a` and `b` taking the places of the name and of the Math column. */
  lemma CommaInNameShiftsColumns(row: Row, a: string, b: string)
    requires WellFormed(row)
    requires row.name == a + [','] + b && ',' !in a && ',' !in b
    ensures SplitOn(CsvLine(row), ',') == [a, b] + RowTexts(row)[1..]
    ensures |SplitOn(CsvLine(row), ',')| == |Columns| + 1
  {
    var texts := RowTexts(row);
    assert texts[0] == a + [','] + b;
    NumericTextsPlain(row);
    SplitWithCommaInHead(a, b, texts);
  }

  /** Joining fields whose first one is `a,b` and whose others have no comma, then
      splitting on commas, gives `a`, `b` and the other fields. */
  lemma SplitWithCommaInHead(a: string, b: string, fields: seq<string>)
    requires |fields| >= 2 && fields[0] == a + [','] + b && ',' !in a && ',' !in b
    requires forall k :: 1 <= k < |fields| ==> ',' !in fields[k]
    ensures SplitOn(Join(fields, ','), ',') == [a, b] + fields[1..]
  {
    var rest := fields[1..];
    assert fields == [a + [','] + b] + rest;
    assert forall k :: 0 <= k < |rest| ==> rest[k] == fields[k + 1];
    PartsPlain(a, b, rest);
    SplitJoin([a, b] + rest, ',');
    JoinSplitHead(a, b, rest, ',');
  }

  lemma PartsPlain(a: string, b: string, rest: seq<string>)
    requires ',' !in a && ',' !in b
    requires forall k :: 0 <= k < |rest| ==> ',' !in rest[k]
    ensures forall k :: 0 <= k < |rest| + 2 ==> ',' !in ([a, b] + rest)[k]
  {
    var parts := [a, b] + rest;
    forall k | 0 <= k < |parts|
      ensures ',' !in parts[k]
    {
      if k >= 2 {
        assert parts[k] == rest[k - 2];
      }
    }
  }

  lemma JoinSplitHead(a: string, b: string, rest: seq<string>, sep: char)
    requires |rest| >= 1
    ensures Join([a + [sep] + b] + rest, sep) == Join([a, b] + rest, sep)
  {
    JoinAppend([a + [sep] + b], rest, sep);
    assert [a, b][..1] == [a];
    JoinAppend([a, b], rest, sep);
  }

  /** The CSV line of the worked example: Alice with 80, 90, 70, 85 and 95. */
  lemma AliceCsvLine()
    ensures CsvLine(MakeRow("Alice", [80, 90, 70, 85, 95])) == "Alice,80,90,70,85,95,420,84.00,A"
  {
    AliceExample();
    var row := MakeRow("Alice", [80, 90, 70, 85, 95]);
    assert row == Row("Alice", [80, 90, 70, 85, 95], 420, "84.00", A);
    AliceNumbers();
    RowTextsInOrder(row);
    AliceJoin(RowTexts(row));
  }

  lemma AliceNumbers()
    ensures IntToString(80) == "80" && IntToString(90) == "90" && IntToString(70) == "70"
    ensures IntToString(85) == "85" && IntToString(95) == "95" && IntToString(420) == "420"
  {
    assert NatToString(42) == "42";
  }

  /** The nine cell texts of a row with five marks, column by column. */
  lemma RowTextsInOrder(row: Row)
    requires |row.marks| == NumSubjects
    ensures var texts := RowTexts(row);
      && |texts| == 9 && texts[0] == row.name
      && texts[1] == IntToString(row.marks[0]) && texts[2] == IntToString(row.marks[1])
      && texts[3] == IntToString(row.marks[2]) && texts[4] == IntToString(row.marks[3])
      && texts[5] == IntToString(row.marks[4]) && texts[6] == IntToString(row.total)
      && texts[7] == row.percentText && texts[8] == GradeName(row.grade)
  {
    var texts := RowTexts(row);
    var cells := Cells(row);
    assert cells[1] == Number(row.marks[0]) && cells[2] == Number(row.marks[1]) && cells[3] == Number(row.marks[2]);
    assert cells[4] == Number(row.marks[3]) && cells[5] == Number(row.marks[4]);
    assert texts[1] == CellText(cells[1]) && texts[2] == CellText(cells[2]) && texts[3] == CellText(cells[3]);
    assert texts[4] == CellText(cells[4]) && texts[5] == CellText(cells[5]);
    assert texts[6] == CellText(cells[6]) && texts[7] == CellText(cells[7]) && texts[8] == CellText(cells[8]);
  }

  lemma AliceJoin(texts: seq<string>)
    requires |texts| == 9 && texts[0] == "Alice" && texts[1] == "80" && texts[2] == "90"
    requires texts[3] == "70" && texts[4] == "85" && texts[5] == "95" && texts[6] == "420"
    requires texts[7] == "84.00" && texts[8] == "A"
    ensures Join(texts, ',') == "Alice,80,90,70,85,95,420,84.00,A"
  {
    assert texts[..1] == ["Alice"];
    JoinPrefixStep(texts, 1, ',');
    assert Join(texts[..2], ',') == "Alice,80";
    JoinPrefixStep(texts, 2, ',');
    assert Join(texts[..3], ',') == "Alice,80,90";
    JoinPrefixStep(texts, 3, ',');
    assert Join(texts[..4], ',') == "Alice,80,90,70";
    JoinPrefixStep(texts, 4, ',');
    assert Join(texts[..5], ',') == "Alice,80,90,70,85";
    JoinPrefixStep(texts, 5, ',');
    assert Join(texts[..6], ',') == "Alice,80,90,70,85,95";
    JoinPrefixStep(texts, 6, ',');
    assert Join(texts[..7], ',') == "Alice,80,90,70,85,95,420";
    JoinPrefixStep(texts, 7, ',');
    assert Join(texts[..8], ',') == "Alice,80,90,70,85,95,420,84.00";
    JoinPrefixStep(texts, 8, ',');
    assert texts[..9] == texts;
  }

  // ---------------------------------------------------------------------------
  // The table

  /** What the "Export CSV" action ends in: the empty-table refusal, a cancelled save
      dialog, or the text written to the chosen file. */
  datatype Export = EmptyTable | Cancelled | Written(text: string)

  /** The loop that prints one line's fields, a comma after every field but the last. */
  method PrintFields(out: string, fields: seq<string>) returns (printed: string)
    ensures printed == out + Join(fields, ',')
  {
    printed := out;
    var c := 0;
    while c < |fields|
      invariant 0 <= c <= |fields|
      invariant printed == out + Join(fields[..c], ',') + (if 0 < c < |fields| then "," else "")
    {
      assert fields[..c + 1][..c] == fields[..c];
      printed := printed + fields[c];
      if c < |fields| - 1 {
        printed := printed + ",";
      }
      c := c + 1;
    }
    assert fields[..c] == fields;
  }

  /** The row that adding an accepted form appends: the trimmed name and the validated
      marks. It is well-formed, so the table only ever holds well-formed rows. */
  function RowFor(form: Form): (row: Row)
    requires Validate(form).Ok? && |form.markTexts| == NumSubjects
    ensures WellFormed(row)
    ensures row.name == Trim(form.nameText) && row.marks == Validate(form).marks
  {
    TrimIdempotent(form.nameText);
    MakeRow(Trim(form.nameText), Validate(form).marks)
  }

  /** What parseInt reads from each trimmed field. */
  function ParsedMarks(texts: seq<string>): (marks: seq<int>)
    requires forall k :: 0 <= k < |texts| ==> ParseInt(Trim(texts[k])).Some?
    ensures |marks| == |texts|
    ensures forall k :: 0 <= k < |texts| ==> ParseInt(Trim(texts[k])) == Some(marks[k])
  {
    seq(|texts|, k requires 0 <= k < |texts| => ParseInt(Trim(texts[k])).value)
  }

  /** The loop of addToTable that parses each mark field again; it needs every field to
      parse, which the calculation that precedes it has made sure of. */
  method ReparseMarks(texts: seq<string>) returns (marks: array<int>)
    requires forall k :: 0 <= k < |texts| ==> ParseInt(Trim(texts[k])).Some?
    ensures marks[..] == ParsedMarks(texts)
  {
    ghost var parsed := ParsedMarks(texts);
    marks := new int[|texts|];
    for i := 0 to |texts|
      invariant marks[..i] == parsed[..i]
    {
      marks[i] := ParseInt(Trim(texts[i])).value;
      assert marks[..i + 1] == parsed[..i + 1];
    }
    assert marks[..] == marks[..|texts|];
  }

  /** The rest of addToTable: total the marks, derive the percentage text and the grade,
      and lay out the row. */
  method BuildRow(name: string, marks: array<int>) returns (row: Row)
    requires marks.Length == NumSubjects && ValidMarks(marks[..])
    ensures row == MakeRow(name, marks[..])
  {
    var total := TotalOf(marks);
    SumBounds(marks[..]);
    var percentage := (total as real / (marks.Length as real * 100.0)) * 100.0;
    assert percentage == Percentage(total);
    row := Row(name, marks[..], total, PercentText(total), ComputeGrade(percentage));
  }

  class RecordTable {
    var rows: seq<Row>

    /** Every row was built by addToTable from a validated form. */
    ghost predicate Valid()
      reads this
    {
      forall k :: 0 <= k < |rows| ==> WellFormed(rows[k])
    }

    constructor()
      ensures Valid() && rows == []
    {
      rows := [];
    }

    /** addToTable: read the name and the marks again from the form (which the calculation
        has just accepted), derive total, percentage text and grade, and append the row. */
    method AddToTable(form: Form)
      requires Valid()
      requires |form.markTexts| == NumSubjects && Validate(form).Ok?
      modifies this
      ensures Valid()
      ensures rows == old(rows) + [RowFor(form)]
    {
      ghost var added := RowFor(form);
      ValidatedFieldsParse(form);
      var name := Trim(form.nameText);
      var marks := ReparseMarks(form.markTexts);
      assert forall k :: 0 <= k < NumSubjects ==> marks[k] == added.marks[k];
      assert marks[..] == added.marks;
      var row := BuildRow(name, marks);
      rows := rows + [row];
    }

    /** The "Add to Table" button: calculate, and add the row only when the calculation
        accepted the form. */
    method AddStudent(form: Form) returns (v: Validation, shown: Option<GradeResult>)
      requires Valid() && |form.markTexts| == NumSubjects
      modifies this
      ensures Valid()
      ensures v == Validate(form)
      ensures shown == if v.Ok? then Some(Compute(v.marks)) else None
      ensures rows == if v.Ok? then old(rows) + [RowFor(form)] else old(rows)
    {
      v, shown := CalculateAndShow(form);
      if v.Ok? {
        AddToTable(form);
      }
    }

    /** removeSelectedRow: `selected` is the table's selection (-1 when none), `confirmed`
        the answer to the confirmation dialog; the row goes only when both allow it. */
    method RemoveSelectedRow(selected: int, confirmed: bool)
      requires Valid() && -1 <= selected < |rows|
      modifies this
      ensures Valid()
      ensures rows == if selected >= 0 && confirmed then RemoveAt(old(rows), selected) else old(rows)
    {
      if selected >= 0 {
        if confirmed {
          rows := RemoveAt(rows, selected);
        }
      }
    }

    /** loadRowToForm: the row's name and marks go back into the fields, and its stored
        total, percentage text and grade into the labels. */
    function LoadRowToForm(r: nat): (d: Display)
      reads this
      requires Valid() && r < |rows|
      ensures d.form == RowToForm(rows[r])
      ensures d.totalLabel == "Total: " + IntToString(rows[r].total)
      ensures d.percentLabel == "Percentage: " + rows[r].percentText
      ensures d.gradeLabel == "Grade: " + GradeName(rows[r].grade)
      ensures Validate(d.form) == Ok(rows[r].marks)
      ensures MakeRow(Trim(d.form.nameText), rows[r].marks) == rows[r]
    {
      var row := rows[r];
      ReloadRecomputes(row);
      Display(RowToForm(row), "Total: " + IntToString(row.total), "Percentage: " + row.percentText,
              "Grade: " + GradeName(row.grade))
    }

    /** The double-click handler: load the selected row, if there is one. */
    function DoubleClick(selected: int): (d: Option<Display>)
      reads this
      requires Valid() && -1 <= selected < |rows|
      ensures d.Some? <==> selected >= 0
      ensures d.Some? ==> d.value == LoadRowToForm(selected) && d.value.form == RowToForm(rows[selected])
      ensures d.Some? ==> Validate(d.value.form) == Ok(rows[selected].marks)
    {
      if selected >= 0 then Some(LoadRowToForm(selected)) else None
    }

    /** exportCSV: refuse an empty table, stop if the save dialog is cancelled, and
        otherwise print the header line and then each row, field by field. */
    method ExportCsv(approved: bool) returns (outcome: Export)
      ensures outcome == if rows == [] then EmptyTable else if !approved then Cancelled else Written(CsvText(rows))
    {
      if |rows| == 0 {
        return EmptyTable;
      }
      if !approved {
        return Cancelled;
      }
      var out := PrintFields("", Columns);
      out := out + "\n";
      var r := 0;
      while r < |rows|
        invariant 0 <= r <= |rows|
        invariant out == Terminated([Join(Columns, ',')] + CsvLines(rows[..r]), '\n')
      {
        var fields := Texts(Cells(rows[r]));
        out := PrintFields(out, fields);
        out := out + "\n";
        CsvLinesStep(rows, r);
        r := r + 1;
      }
      assert rows[..r] == rows;
      return Written(out);
    }
  }
}
