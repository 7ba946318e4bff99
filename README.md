# Student Grade Calculator — a verified model of its core

The Student Grade Calculator is a single Swing window. A user types a student's name and
five marks (Math, Physics, Chemistry, English, Computer). The window then validates the form,
shows the total out of 500, the percentage, a letter grade and a coloured grade label. It can
add the result as a row of a table, remove a selected row after confirmation, load a row back
into the form by double-clicking it, and export the table as CSV.

This project models the part of that window that is not widgets:

- `java_strings.dfy` (module `JavaStrings`): the Java library behaviour the program relies
  on, stated exactly. This covers `String.trim`, `Integer.parseInt` with its `int` range,
  `Integer.toString`/`String.valueOf`, and the comma and line joins the CSV writer performs
  with `print` and `println`. It also holds the reference readers (`SplitOn`, `ReadLines`)
  that the CSV properties are stated against.
- `grading.dfy` (module `Grading`): validation of the form with its error precedence, the
  totalling loop, the percentage, the letter grade ladder, the colour tier and the
  two-decimal percentage text. `ReadForm`, `TotalOf` and `CalculateAndShow` are the loops of
  `calculateAndShow`. They fill a `marks` array and are proved against the functions
  `Validate` and `Sum`.
- `records.dfy` (module `Records`): the table as a class `RecordTable` holding a `seq` of
  rows. It models `addToTable` (including its second parse of the fields), the "Add to Table"
  button, `removeSelectedRow`, `loadRowToForm`, the double-click handler and the CSV text
  that `exportCSV` prints, with the loops that print it.

The percentage is computed as `(total / (5 * 100.0)) * 100.0` over exact rationals (`real`).
It therefore equals `total / 5`, and every threshold of the grade ladder and of the colour
tier is a threshold on the integer total (450, 400, 350, 300, 250; 375, 250). `%.2f` of the
percentage is `FormatFixed2(total * 20)`. That is the integer part `total / 5`, a point, and
the two digits of `(total % 5) * 20`. The decimal separator is fixed to `.` and the line
terminator to `\n`.

Three choices of the code that the model keeps:

- `exportCSV` refuses an empty table (`ExportCsv` returns `EmptyTable`); `CsvText([])` alone
  would be the header line, as `CsvReadsBack` shows.
- `RemoveSelectedRow` takes the table's selection, which is -1 or a valid row index.
- `addToTable` parses the fields a second time rather than reusing the validated marks.
  `ReparseMarks` models that loop, and `AddToTable` proves that it gives back the validated
  marks.

The CSV writer does not quote fields. A name containing a comma makes its line split into
ten fields (`CommaInNameShiftsColumns`). The round trip `CsvReadsBack` therefore assumes
names without commas or line breaks.

## Model

| member | source | states |
|---|---|---|
| JavaStrings.Trim | StudentGradeCalculator.java:151 | `String.trim`: drops every character up to U+0020 from both ends (its properties are `TrimSpec` and `TrimIdempotent`) |
| JavaStrings.TrimSpec | StudentGradeCalculator.java:151 | `trim` keeps a contiguous part of the text and drops only characters up to U+0020 before and after it; the result is empty exactly when the text is all such characters, and otherwise starts and ends with a non-space |
| JavaStrings.TrimOfTrimmed | StudentGradeCalculator.java:151 | a text with no space at either end is its own trim |
| JavaStrings.TrimIdempotent | StudentGradeCalculator.java:210 | trimming twice is trimming once, so the stored name is already trimmed |
| JavaStrings.NatToString | StudentGradeCalculator.java:253 | `String.valueOf` of a non-negative int is its decimal digits, without leading zeros, denoting the value |
| JavaStrings.ParseIntOfDigits | StudentGradeCalculator.java:165 | `parseInt` reads an unsigned digit string whose value fits in an int as that value |
| JavaStrings.ParseIntOverflow | StudentGradeCalculator.java:165 | `parseInt` refuses a digit string whose value exceeds the int range |
| JavaStrings.ParseInt | StudentGradeCalculator.java:165 | `parseInt` succeeds exactly on a text of an optional `+` or `-` and one or more ASCII digits whose value, negated after a `-`, lies within the 32-bit range, and then yields that value |
| JavaStrings.IntToString | StudentGradeCalculator.java:253 | `Integer.toString`/`String.valueOf`: a minus sign exactly for negative values, then the digits of the magnitude (`NatToString`); `ParseIntToString` reads it back |
| JavaStrings.ParseIntToString | StudentGradeCalculator.java:253 | `parseInt` reads back what `String.valueOf` prints, for every int |
| JavaStrings.NatToStringTrimmed | StudentGradeCalculator.java:253 | the printed mark has no surrounding space, so trimming keeps it |
| JavaStrings.LeadingDigitBound | StudentGradeCalculator.java:165 | a digit string is worth at least its leading digit times that digit's place value, which is why ten-digit marks overflow |
| JavaStrings.Join | StudentGradeCalculator.java:282-286 | the fields printed one after another with the separator between neighbours and none after the last (`SplitJoin` splits it back, `PrintFields` is the loop that prints it) |
| JavaStrings.Terminated | StudentGradeCalculator.java:279-287 | the lines printed one after another, each followed by `println`'s terminator (`TerminatedIsJoin`, `ReadLinesTerminated`) |
| JavaStrings.SplitJoin | StudentGradeCalculator.java:282-286 | splitting the comma-joined fields on commas gives the fields back when none contains a comma |
| JavaStrings.JoinAppend | StudentGradeCalculator.java:282-286 | joining two runs of fields is joining each with one separator between them |
| JavaStrings.JoinAvoids | StudentGradeCalculator.java:282-286 | a character in no field and different from the separator does not occur in the joined line |
| JavaStrings.TerminatedIsJoin | StudentGradeCalculator.java:279-287 | printing each line followed by the terminator is joining the lines with it and ending the last one too |
| JavaStrings.ReadLinesTerminated | StudentGradeCalculator.java:279-287 | reading the printed text line by line gives the lines back when none contains the terminator |
| Grading.CheckMark | StudentGradeCalculator.java:159-173 | the check of one field: blank after trim, then not an int, then outside 0..100; an accepted mark is within 0..100 and an out-of-bounds one is outside it |
| Grading.CheckMarkCases | StudentGradeCalculator.java:159-173 | a field is blank exactly when its trim is empty; not numeric exactly when the trim is non-empty and `parseInt` refuses it; out of range exactly when it parses to a value outside 0..100, and accepted exactly when it parses to one inside, carrying that value |
| Grading.Rejection | StudentGradeCalculator.java:160-173 | each failed field check becomes the error of that kind for that field |
| Grading.ValidateFrom | StudentGradeCalculator.java:158-175 | the remaining fields either all pass, giving one mark per field, or one field fails |
| Grading.Validate | StudentGradeCalculator.java:150-175 | a successful validation gives one mark per field, each within 0..100 |
| Grading.ValidateFromFirstFailure | StudentGradeCalculator.java:158-175 | the scan from field i succeeds exactly when every later check passes, keeping the marks found so far and adding each accepted mark; otherwise it reports the first failing field with that field's own failure |
| Grading.ValidateReportsFirstFailure | StudentGradeCalculator.java:151-175 | an empty trimmed name is reported whatever the marks are; otherwise validation succeeds exactly when every field is accepted, giving those marks in order, and otherwise reports the first failing field with its own failure (blank before non-numeric before out of range) |
| Grading.ValidatedMarksInRange | StudentGradeCalculator.java:157-178 | after a successful validation there are five marks, each within 0..100, and their total is within 0..500 |
| Grading.ValidatedFieldsParse | StudentGradeCalculator.java:211-212 | after a successful validation, parsing each trimmed field again gives exactly the validated mark |
| Grading.BlankMarkExample | StudentGradeCalculator.java:159-163 | a field of a space and a tab is blank |
| Grading.PaddedMarkExample | StudentGradeCalculator.java:159-170 | " 85 " is accepted as 85 |
| Grading.PlusSignExample | StudentGradeCalculator.java:165-170 | "+7" is accepted as 7 |
| Grading.NegativeMarkExample | StudentGradeCalculator.java:165-169 | "-5" parses and is rejected as out of range, not as non-numeric |
| Grading.NegativeMarkOutOfRange | StudentGradeCalculator.java:165-169 | every field of a minus sign and digits denoting a negative int parses and is refused as out of range, not as non-numeric |
| Grading.AboveMaximumExample | StudentGradeCalculator.java:166-169 | "101" is out of range |
| Grading.LetterInMarkExample | StudentGradeCalculator.java:164-174 | "8a" is not numeric |
| Grading.OverflowMarkExample | StudentGradeCalculator.java:164-174 | "3000000000" does not fit in an int and is reported as not numeric |
| Grading.Sum | StudentGradeCalculator.java:177-178 | the total of the marks, accumulated left to right (`SumBounds` bounds it, `TotalOf` is the loop) |
| Grading.Percentage | StudentGradeCalculator.java:179 | `(total / (5 * 100.0)) * 100.0` over exact rationals equals total / 5, and lies within 0..100 for a total within 0..500 |
| Grading.GradeName | StudentGradeCalculator.java:201-206 | the texts `computeGrade` returns: "A+" (the only two-character one) or a single letter A to F |
| Grading.GradeNameInjective | StudentGradeCalculator.java:201-206 | different grades print differently, so the stored and exported Grade column identifies the grade |
| Grading.ComputeGrade | StudentGradeCalculator.java:199-207 | `computeGrade`: A+ exactly from 90, A on [80, 90), B on [70, 80), C on [60, 70), D on [50, 60), F below 50 (`GradeAndTierMonotone`, `GradeAndTierOnTotal`) |
| Grading.TierOf | StudentGradeCalculator.java:189-195 | the label colour: high (green) exactly from 75, mid (yellow) on [50, 75), low (red) below 50, independent of the grade |
| Grading.SumBounds | StudentGradeCalculator.java:177-178 | marks within 0..100 total within 0..100 times their number |
| Grading.GradeAndTierMonotone | StudentGradeCalculator.java:189-207 | a higher percentage never gives a lower grade, nor a lower colour tier |
| Grading.GradeAndTierOnTotal | StudentGradeCalculator.java:179-207 | the grade is A+, A, B, C, D or F as the total reaches 450, 400, 350, 300, 250 or none; the tier is high from 375, mid from 250, low below |
| Grading.BoundaryExamples | StudentGradeCalculator.java:189-207 | the thresholds are closed lower bounds (90 is A+, 89.99 is A, 75 is high, 74.99 mid, ...); 70 is grade B but mid tier and 75 is grade B but high tier |
| Grading.FormatFixed2 | StudentGradeCalculator.java:222 | `%.2f` of a whole number of hundredths: the integer part, a point and two fraction digits (`ReadFormatFixed2` reads it back) |
| Grading.PercentText | StudentGradeCalculator.java:222 | the `%.2f` text of the percentage of a total, which is `FormatFixed2(total * 20)` (`PercentTextExact` spells it out) |
| Grading.TwoDigits | StudentGradeCalculator.java:222 | two digit characters denoting a number below 100 |
| Grading.ReadFormatFixed2 | StudentGradeCalculator.java:222 | the `%.2f` text of a whole number of hundredths reads back as that number |
| Grading.PercentTextExact | StudentGradeCalculator.java:179-222 | the percentage text is `total / 5`, a point and the two digits of `(total % 5) * 20`; it denotes exactly the percentage |
| Grading.Compute | StudentGradeCalculator.java:177-195 | for validated marks: total equal to the sum of the marks, within 0..500, out of a maximum of 500; percentage equal to total / 5 and within 0..100; the `%.2f` text of the total, which reads back as total * 20 hundredths; the grade and tier that the ladders give for the percentage |
| Grading.StoreMark | StudentGradeCalculator.java:170 | storing an accepted mark extends the filled part of the marks array by that mark and leaves the rest of the array as it was |
| Grading.ReadForm | StudentGradeCalculator.java:150-175 | the name check and the field loop return exactly `Validate` of the form, and on success the marks array holds the validated marks |
| Grading.TotalOf | StudentGradeCalculator.java:177-178 | the totalling loop yields the sum of the marks |
| Grading.CalculateAndShow | StudentGradeCalculator.java:150-196 | the result is `Validate` of the form; on success five valid marks and the displayed result is `Compute` of them, and nothing is displayed otherwise |
| Grading.AliceExample | StudentGradeCalculator.java:177-222 | marks 80, 90, 70, 85, 95 give total 420 of 500, 84.0 percent, "84.00", grade A, high tier |
| Grading.FiftiesExample | StudentGradeCalculator.java:177-222 | five 50s give exactly 50.00 percent: grade D, mid tier |
| Grading.ZerosExample | StudentGradeCalculator.java:177-222 | five 0s give 0.00 percent: grade F, low tier |
| Records.MakeRow | StudentGradeCalculator.java:213-223 | the row added for a name and validated marks keeps both, has total equal to their sum within 0..500, the `%.2f` text of that total (reading back as total * 20 hundredths), and the grade of total / 5 |
| Records.ColumnsFollowSubjects | StudentGradeCalculator.java:97 | the nine columns are the name, the five subjects in the order of the mark fields, then total, percentage and grade |
| Records.CellText | StudentGradeCalculator.java:284 | what the exporter prints for a cell: the empty text for null, `toString` otherwise |
| Records.Cells | StudentGradeCalculator.java:218-223 | the cells of a row in column order: name, each mark, total, percentage text, grade name |
| Records.RemoveAt | StudentGradeCalculator.java:243 | removing row i keeps the rows before it, shifts the later ones up by one, and leaves one row fewer |
| Records.RowToForm | StudentGradeCalculator.java:251-254 | loading a row puts its name into the name field and `String.valueOf` of each mark into the mark fields |
| Records.MarkTextAccepted | StudentGradeCalculator.java:253 | the printed text of a valid mark passes the field check as that same mark |
| Records.ReloadRecomputes | StudentGradeCalculator.java:250-258 | loading a well-formed row into the form and validating it succeeds with the row's marks, and rebuilding the row from the trimmed name gives the stored row |
| Records.NumericTextsPlain | StudentGradeCalculator.java:218-223 | no cell text after the name contains a comma or a line break, for a row with valid marks whose percentage text is that of its total |
| Records.CsvLine | StudentGradeCalculator.java:282-286 | one row's line: its cell texts joined by commas, nothing quoted (`LineReadsBack`) |
| Records.CsvText | StudentGradeCalculator.java:275-288 | the exported text: the header line and then one line per row in table order, each terminated (`CsvReadsBack`, and `ExportCsv`'s loops produce it) |
| Records.RowTextsInOrder | StudentGradeCalculator.java:218-223 | the nine cell texts of a row, column by column: name, the five printed marks, the printed total, the percentage text and the grade name |
| JavaStrings.JoinPrefixStep | StudentGradeCalculator.java:282-286 | printing one more field after at least one is printing a comma and that field |
| Records.AliceCsvLine | StudentGradeCalculator.java:209-224 | the exported line for Alice with 80, 90, 70, 85, 95 is `Alice,80,90,70,85,95,420,84.00,A` |
| Records.LineReadsBack | StudentGradeCalculator.java:282-287 | a row line has no line break and splits on commas into the row's nine cell texts, when the name has neither |
| Records.RowTextsPlain | StudentGradeCalculator.java:218-223 | a well-formed row whose name has no comma or line break has nine cell texts, none containing either |
| Records.PlainFieldsReadBack | StudentGradeCalculator.java:282-286 | fields free of commas and line breaks join into one line that splits back into them |
| Records.HeaderReadsBack | StudentGradeCalculator.java:275-279 | the header line has no line break and splits on commas into the nine column names |
| Records.RowsReadBack | StudentGradeCalculator.java:281-288 | every row line of a table reads back as that row's cell texts |
| Records.CsvReadsBack | StudentGradeCalculator.java:275-288 | the exported text read line by line is the header plus one line per row in table order; the header splits into the column names and each row line into that row's cell texts |
| Records.CommaInNameShiftsColumns | StudentGradeCalculator.java:284-285 | a name `a,b` is written unquoted, so its line splits into ten fields with `a` and `b` in front of the rest |
| Records.PrintFields | StudentGradeCalculator.java:282-286 | the field loop appends the fields with a comma after each but the last, which is the comma join |
| Records.RowFor | StudentGradeCalculator.java:209-223 | the row appended for an accepted form has the trimmed name and the validated marks, and is well-formed |
| Records.ParsedMarks | StudentGradeCalculator.java:212 | what `parseInt` reads from each trimmed field |
| Records.ReparseMarks | StudentGradeCalculator.java:211-212 | the second parsing loop of `addToTable` fills the array with what `parseInt` reads from each trimmed field |
| Records.BuildRow | StudentGradeCalculator.java:213-223 | totalling, percentage and grade of `addToTable` build exactly `MakeRow` of the name and marks |
| Records.RecordTable.constructor | StudentGradeCalculator.java:98 | the table starts empty |
| Records.RecordTable.AddToTable | StudentGradeCalculator.java:209-224 | appends exactly one row, `RowFor` of the form, after the existing rows, which are unchanged; every row stays well-formed |
| Records.RecordTable.AddStudent | StudentGradeCalculator.java:119-123 | the add button shows the calculation's result and appends the row only when validation succeeded; otherwise the table is unchanged |
| Records.RecordTable.RemoveSelectedRow | StudentGradeCalculator.java:238-248 | the table changes only when a row is selected and the removal confirmed, and then loses exactly that row |
| Records.RecordTable.LoadRowToForm | StudentGradeCalculator.java:250-258 | the form is the row's name and printed marks; the labels show the stored total, percentage text and grade name; the form validates to the row's marks and recomputes the stored row |
| Records.RecordTable.DoubleClick | StudentGradeCalculator.java:129-135 | a row is loaded exactly when one is selected, and it is the selected row: the display is `LoadRowToForm` of it, with that row's form, which validates to its marks |
| Records.RecordTable.ExportCsv | StudentGradeCalculator.java:260-288 | an empty table is refused, a cancelled save dialog writes nothing, and otherwise the text written is the header line followed by one line per row, each ended by a line break |

## Left out

- The Swing layout, fonts, dialogs and their message texts, key bindings and look-and-feel.
  They are user interface; each dialog becomes a result value (a `Validation` error, an
  `Export` outcome) or a parameter (`confirmed`, `approved`, `selected`).
- `clearInputs`. It only empties the text fields and resets the labels.
- File writing with `PrintWriter`/`FileWriter`, `flush` and the exception path. This is I/O.
  The save dialog's answer is the `approved` parameter, and the model gives the text that
  would be written.
- `double` arithmetic. The percentage is an exact rational, and its `%.2f` text is built from
  the integer total. For totals in 0..500 the double result is within rounding error of
  `total / 5`, and `%.2f` of it prints the same two decimals.
- Locale-dependent formatting and the platform line separator. The model fixes `.` and `\n`.
- `Color` objects. The label colour is the `Tier` enumeration (green, yellow, red).
- `Integer.parseInt` on non-ASCII Unicode digits. The model accepts an optional `+` or `-`
  followed by ASCII digits, and reports values outside the int range as not numeric.
- The texts of the total, percentage and grade labels (`"Total: "`, `"Percentage: "`, `"Grade: "`)
  after a calculation. They are display only; the values behind them are `Compute`'s result.
  The labels that `loadRowToForm` sets are modelled (`LoadRowToForm`).
- A table cell that is null. The exporter's null branch is in `CellText`, but rows built by
  `addToTable` never hold a null.
