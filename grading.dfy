/** The grade engine behind the "Calculate" button: validation of the form's six text
    fields, the total, the percentage and its two-decimal text, the letter grade and the
    colour tier of the result label. */
module Grading {
  import opened JavaStrings

  /** The subjects, in the order of the form's mark fields and of the table's columns. */
  const Subjects: seq<string> := ["Math", "Physics", "Chemistry", "English", "Computer"]
  const NumSubjects: nat := 5
  const MaxMark: int := 100

  /** The text of the name field and of the mark fields, as typed. */
  datatype Form = Form(nameText: string, markTexts: seq<string>)

  /** What the checks of one mark field find, in the order they are made. */
  datatype FieldCheck = Blank | Unparsable | OutOfBounds(value: int) | Accepted(mark: int)

  /** The outcome of validation: the marks, or the first failure (field numbered from 0). */
  datatype Validation =
    | Ok(marks: seq<int>)
    | EmptyName
    | MissingMark(field: nat)
    | NotNumeric(field: nat)
    | OutOfRange(field: nat)
  {
    predicate FieldError() {
      MissingMark? || NotNumeric? || OutOfRange?
    }
  }

  predicate ValidMarks(marks: seq<int>) {
    forall k :: 0 <= k < |marks| ==> 0 <= marks[k] <= MaxMark
  }

  // ---------------------------------------------------------------------------
  // Validation

  /** One mark field: blank after trimming, then not an int, then outside 0..100. */
  function CheckMark(text: string): (c: FieldCheck)
    ensures c.Accepted? ==> 0 <= c.mark <= MaxMark
    ensures c.OutOfBounds? ==> c.value < 0 || c.value > MaxMark
  {
    var s := Trim(text);
    if s == [] then Blank
    else
      match ParseInt(s)
      case None => Unparsable
      case Some(m) => if m < 0 || m > MaxMark then OutOfBounds(m) else Accepted(m)
  }

  /** The message a failed field check leads to. */
  function Rejection(c: FieldCheck, field: nat): (v: Validation)
    requires !c.Accepted?
    ensures v.FieldError() && v.field == field
  {
    match c
    case Blank => MissingMark(field)
    case Unparsable => NotNumeric(field)
    case OutOfBounds(_) => OutOfRange(field)
  }

  /** The check of every mark field, in field order. */
  function Checks(texts: seq<string>): (checks: seq<FieldCheck>)
    ensures |checks| == |texts|
    ensures forall k :: 0 <= k < |texts| ==> checks[k] == CheckMark(texts[k])
  {
    seq(|texts|, k requires 0 <= k < |texts| => CheckMark(texts[k]))
  }

  /** The mark fields from `i` on, after the fields before `i` gave the marks `done`. */
  function ValidateFrom(checks: seq<FieldCheck>, i: nat, done: seq<int>): (v: Validation)
    requires i <= |checks| && |done| == i
    ensures v.FieldError() || v.Ok?
    ensures v.Ok? ==> |v.marks| == |checks|
    decreases |checks| - i
  {
    if i == |checks| then Ok(done)
    else if checks[i].Accepted? then ValidateFrom(checks, i + 1, done + [checks[i].mark])
    else Rejection(checks[i], i)
  }

  /** The checks of calculateAndShow: the trimmed name, then each mark field left to right. */
  function Validate(form: Form): (v: Validation)
    ensures v.Ok? ==> |v.marks| == |form.markTexts| && ValidMarks(v.marks)
  {
    if Trim(form.nameText) == [] then EmptyName
    else
      var checks := Checks(form.markTexts);
      ValidateFromFirstFailure(checks, 0, []);
      ValidateFrom(checks, 0, [])
  }

  lemma {:induction false} ValidateFromFirstFailure(checks: seq<FieldCheck>, i: nat, done: seq<int>)
    requires i <= |checks| && |done| == i
    ensures var v := ValidateFrom(checks, i, done);
      && (v.Ok? <==> forall k :: i <= k < |checks| ==> checks[k].Accepted?)
      && (v.Ok? ==> v.marks[..i] == done)
      && (v.Ok? ==> forall k :: i <= k < |checks| ==> checks[k] == Accepted(v.marks[k]))
      && (v.FieldError() ==>
            && i <= v.field < |checks|
            && (forall k :: i <= k < v.field ==> checks[k].Accepted?)
            && !checks[v.field].Accepted?
            && v == Rejection(checks[v.field], v.field))
    decreases |checks| - i
  {
    if i < |checks| && checks[i].Accepted? {
      ValidateFromFirstFailure(checks, i + 1, done + [checks[i].mark]);
      var v := ValidateFrom(checks, i, done);
      if v.Ok? {
        assert v.marks[..i + 1][..i] == v.marks[..i];
      }
    }
  }

  /** Validation reports the empty name before looking at any mark, and otherwise the first
      failing mark field, with that field's own failure; it succeeds exactly when every
      field is accepted, and then gives the accepted marks in field order. */
  lemma ValidateReportsFirstFailure(form: Form)
    ensures var v := Validate(form);
      var texts := form.markTexts;
      && (v == EmptyName <==> Trim(form.nameText) == [])
      && (v.Ok? <==> Trim(form.nameText) != [] && forall k :: 0 <= k < |texts| ==> CheckMark(texts[k]).Accepted?)
      && (v.Ok? ==> forall k :: 0 <= k < |texts| ==> CheckMark(texts[k]) == Accepted(v.marks[k]))
      && (v.FieldError() ==>
            && Trim(form.nameText) != []
            && v.field < |texts|
            && (forall k :: 0 <= k < v.field ==> CheckMark(texts[k]).Accepted?)
            && !CheckMark(texts[v.field]).Accepted?
            && v == Rejection(CheckMark(texts[v.field]), v.field))
  {
    var texts := form.markTexts;
    if Trim(form.nameText) != [] {
      var checks := Checks(texts);
      assert Validate(form) == ValidateFrom(checks, 0, []);
      ValidateFromFirstFailure(checks, 0, []);
      assert forall k :: 0 <= k < |texts| ==> checks[k] == CheckMark(texts[k]);
      var v := Validate(form);
      if v.FieldError() {
        assert checks[v.field] == CheckMark(texts[v.field]);
      }
    }
  }

  /** Validated marks are all within 0..100, so their total is within 0..500. */
  lemma ValidatedMarksInRange(form: Form)
    requires |form.markTexts| == NumSubjects
    ensures var v := Validate(form);
      v.Ok? ==> |v.marks| == NumSubjects && ValidMarks(v.marks) && 0 <= Sum(v.marks) <= NumSubjects * MaxMark
  {
    ValidateReportsFirstFailure(form);
    var v := Validate(form);
    if v.Ok? {
      assert forall k :: 0 <= k < |v.marks| ==> CheckMark(form.markTexts[k]) == Accepted(v.marks[k]);
      SumBounds(v.marks);
    }
  }

  /** After a successful validation each mark field, trimmed, is read by parseInt as
      exactly the validated mark (so re-reading the fields gives the same marks). */
  lemma ValidatedFieldsParse(form: Form)
    requires Validate(form).Ok?
    ensures var v := Validate(form);
      forall k :: 0 <= k < |form.markTexts| ==> ParseInt(Trim(form.markTexts[k])) == Some(v.marks[k])
  {
    ValidateReportsFirstFailure(form);
  }

  // Worked field checks, one per rule.

  /** The checks of one field, in order: blank after trimming, then refused by parseInt,
      then outside 0..100; only a field that passes all three is accepted. */
  lemma CheckMarkCases(text: string)
    ensures var s := Trim(text);
      CheckMark(text) == Blank <==> s == []
    ensures var s := Trim(text);
      CheckMark(text) == Unparsable <==> s != [] && ParseInt(s) == None
    ensures var s := Trim(text);
      CheckMark(text).OutOfBounds? <==>
        s != [] && ParseInt(s).Some? && (ParseInt(s).value < 0 || ParseInt(s).value > MaxMark)
    ensures var s := Trim(text);
      CheckMark(text).Accepted? <==> s != [] && ParseInt(s).Some? && 0 <= ParseInt(s).value <= MaxMark
    ensures var s := Trim(text);
      (CheckMark(text).OutOfBounds? ==> Some(CheckMark(text).value) == ParseInt(s))
      && (CheckMark(text).Accepted? ==> Some(CheckMark(text).mark) == ParseInt(s))
  {
  }

  /** Every negative int typed as a minus sign and digits parses, and is then refused as
      out of range rather than as non-numeric. */
  lemma NegativeMarkOutOfRange(d: string)
    requires d != [] && AllDigits(d) && 0 < DigitsValue(d) <= -IntMin
    ensures CheckMark("-" + d) == OutOfBounds(-(DigitsValue(d) as int))
  {
    var s := "-" + d;
    assert s[1..] == d;
    TrimOfTrimmed(s);
    CheckMarkCases(s);
  }

  /** A field of spaces and tabs is blank. */
  lemma BlankMarkExample()
    ensures CheckMark(" \t") == Blank
  {
    assert Trim(" \t") == [];
  }

  /** Spaces around a mark are ignored. */
  lemma PaddedMarkExample()
    ensures CheckMark(" 85 ") == Accepted(85)
  {
    PaddedTrimExample();
    ParseEightyFive();
    CheckMarkCases(" 85 ");
  }

  lemma ParseEightyFive()
    ensures ParseInt("85") == Some(85)
  {
    assert DigitsValue("85") == 85 by { assert "85"[..1] == "8"; }
    ParseIntOfDigits("85");
  }

  lemma PaddedTrimExample()
    ensures Trim(" 85 ") == "85"
  {
    assert SkipSpaces(" 85 ", 0) == 1;
    assert DropSpaces(" 85 ", 1, 4) == 3;
    assert " 85 "[1..3] == "85";
  }

  /** A leading plus sign is accepted. */
  lemma PlusSignExample()
    ensures CheckMark("+7") == Accepted(7)
  {
    TrimOfTrimmed("+7");
    assert ParseInt("+7") == Some(7) by {
      assert "+7"[1..] == "7";
      assert DigitsValue("7") == 7 by { assert "7"[..0] == []; }
    }
    CheckMarkCases("+7");
  }

  /** A negative number parses, and is then out of range. */
  lemma NegativeMarkExample()
    ensures CheckMark("-5") == OutOfBounds(-5)
  {
    TrimOfTrimmed("-5");
    assert ParseInt("-5") == Some(-5) by {
      assert "-5"[1..] == "5";
      assert DigitsValue("5") == 5 by { assert "5"[..0] == []; }
    }
    CheckMarkCases("-5");
  }

  /** 101 is out of range. */
  lemma AboveMaximumExample()
    ensures CheckMark("101") == OutOfBounds(101)
  {
    TrimOfTrimmed("101");
    assert DigitsValue("101") == 101 by { assert "101"[..2] == "10"; assert "10"[..1] == "1"; }
    ParseIntOfDigits("101");
    CheckMarkCases("101");
  }

  /** A stray letter makes the field not numeric. */
  lemma LetterInMarkExample()
    ensures CheckMark("8a") == Unparsable
  {
    TrimOfTrimmed("8a");
    assert ParseInt("8a") == None by {
      assert !IsDigit("8a"[1]);
    }
    CheckMarkCases("8a");
  }

  /** A number too large for an int is reported as not numeric, not as out of range. */
  lemma OverflowMarkExample()
    ensures CheckMark("3000000000") == Unparsable
  {
    var big := "3000000000";
    TrimOfTrimmed(big);
    assert DigitsValue(big) > IntMax by {
      LeadingDigitBound(big);
      assert Pow10(9) == 1000000000 by {
        assert Pow10(3) == 1000 by { assert Pow10(1) == 10; assert Pow10(2) == 100; }
        assert Pow10(6) == 1000000 by { assert Pow10(4) == 10000; assert Pow10(5) == 100000; }
        assert Pow10(7) == 10000000;
        assert Pow10(8) == 100000000;
      }
    }
    ParseIntOverflow(big);
    CheckMarkCases(big);
  }

  // ---------------------------------------------------------------------------
  // Total, percentage, grade and tier

  /** The total, accumulated left to right. */
  function Sum(marks: seq<int>): int {
    if marks == [] then 0 else Sum(marks[..|marks| - 1]) + marks[|marks| - 1]
  }

  lemma {:induction false} SumBounds(marks: seq<int>)
    requires ValidMarks(marks)
    ensures 0 <= Sum(marks) <= MaxMark * |marks|
  {
    if marks != [] {
      SumBounds(marks[..|marks| - 1]);
    }
  }

  /** total / (marks.length * 100.0) * 100.0, computed exactly. */
  function Percentage(total: int): (p: real)
    ensures p == total as real / 5.0
    ensures 0 <= total <= NumSubjects * MaxMark ==> 0.0 <= p <= 100.0
  {
    (total as real / (NumSubjects as real * 100.0)) * 100.0
  }

  datatype Grade = APlus | A | B | C | D | F

  function GradeName(g: Grade): (t: string)
    ensures 1 <= |t| <= 2 && 'A' <= t[0] <= 'F'
    ensures |t| == 2 <==> g == APlus
  {
    match g
    case APlus => "A+"
    case A => "A"
    case B => "B"
    case C => "C"
    case D => "D"
    case F => "F"
  }

  /** Different grades print differently, so the Grade column identifies the grade. */
  lemma GradeNameInjective(g: Grade, h: Grade)
    ensures GradeName(g) == GradeName(h) <==> g == h
  {
  }

  /** The order of the grades, F lowest. */
  function Rank(g: Grade): nat {
    match g
    case F => 0
    case D => 1
    case C => 2
    case B => 3
    case A => 4
    case APlus => 5
  }

  /** computeGrade: the first threshold the percentage reaches, highest first. */
  function ComputeGrade(percentage: real): (g: Grade)
    ensures g == APlus <==> 90.0 <= percentage
    ensures g == A <==> 80.0 <= percentage < 90.0
    ensures g == B <==> 70.0 <= percentage < 80.0
    ensures g == C <==> 60.0 <= percentage < 70.0
    ensures g == D <==> 50.0 <= percentage < 60.0
    ensures g == F <==> percentage < 50.0
  {
    if percentage >= 90.0 then APlus
    else if percentage >= 80.0 then A
    else if percentage >= 70.0 then B
    else if percentage >= 60.0 then C
    else if percentage >= 50.0 then D
    else F
  }

  /** The background of the grade label: green, yellow or red. */
  datatype Tier = High | Mid | Low

  function TierOf(percentage: real): (t: Tier)
    ensures t == High <==> 75.0 <= percentage
    ensures t == Mid <==> 50.0 <= percentage < 75.0
    ensures t == Low <==> percentage < 50.0
  {
    if percentage >= 75.0 then High else if percentage >= 50.0 then Mid else Low
  }

  /** A higher percentage never gives a lower grade or a lower tier. */
  lemma GradeAndTierMonotone(p: real, q: real)
    requires p <= q
    ensures Rank(ComputeGrade(p)) <= Rank(ComputeGrade(q))
    ensures TierOf(p) == High ==> TierOf(q) == High
    ensures TierOf(p) == Mid ==> TierOf(q) != Low
  {
  }

  /** Each threshold in percent is a threshold on the integer total. */
  lemma GradeAndTierOnTotal(total: int)
    ensures ComputeGrade(Percentage(total)) ==
      if total >= 450 then APlus
      else if total >= 400 then A
      else if total >= 350 then B
      else if total >= 300 then C
      else if total >= 250 then D
      else F
    ensures TierOf(Percentage(total)) == if total >= 375 then High else if total >= 250 then Mid else Low
  {
  }

  /** The closed lower bounds of the ladders, and a grade that shows in two tiers. */
  lemma BoundaryExamples()
    ensures ComputeGrade(90.0) == APlus && ComputeGrade(89.99) == A
    ensures ComputeGrade(50.0) == D && ComputeGrade(49.99) == F
    ensures TierOf(75.0) == High && TierOf(74.99) == Mid
    ensures TierOf(50.0) == Mid && TierOf(49.99) == Low
    ensures ComputeGrade(70.0) == B && TierOf(70.0) == Mid
    ensures ComputeGrade(75.0) == B && TierOf(75.0) == High
  {
  }

  // ---------------------------------------------------------------------------
  // Two-decimal text of the percentage

  function TwoDigits(d: nat): (r: string)
    requires d < 100
    ensures |r| == 2 && AllDigits(r) && DigitsValue(r) == d
  {
    var r := [DigitChar(d / 10), DigitChar(d % 10)];
    assert r[..1] == [DigitChar(d / 10)] && r[..1][..0] == [];
    assert DigitsValue(r[..1]) == d / 10;
    r
  }

  /** String.format("%.2f", v) for a non-negative v that is a whole number of hundredths:
      the integer part, a point, and exactly two fraction digits. */
  function FormatFixed2(hundredths: nat): string {
    NatToString(hundredths / 100) + "." + TwoDigits(hundredths % 100)
  }

  /** The number of hundredths a text "<digits>.<two digits>" denotes. */
  function ReadFixed2(text: string): Option<nat> {
    if |text| < 4 || text[|text| - 3] != '.' then None
    else
      var whole := text[..|text| - 3];
      var fraction := text[|text| - 2..];
      if AllDigits(whole) && AllDigits(fraction) then Some(DigitsValue(whole) * 100 + DigitsValue(fraction))
      else None
  }

  lemma ReadFormatFixed2(hundredths: nat)
    ensures ReadFixed2(FormatFixed2(hundredths)) == Some(hundredths)
  {
    var w := NatToString(hundredths / 100);
    var f := TwoDigits(hundredths % 100);
    var t := w + "." + f;
    assert t[..|t| - 3] == w;
    assert t[|t| - 2..] == f;
  }

  /** The percentage text shown and stored in the table. */
  function PercentText(total: nat): string {
    FormatFixed2(total * 20)
  }

  /** The two-decimal text denotes the percentage exactly: its integer part is total / 5
      and its two fraction digits are (total % 5) * 20. */
  lemma PercentTextExact(total: nat)
    ensures PercentText(total) == NatToString(total / 5) + "." + TwoDigits((total % 5) * 20)
    ensures ReadFixed2(PercentText(total)) == Some(total * 20)
    ensures (total * 20) as real / 100.0 == Percentage(total)
  {
    var h := total * 20;
    assert h == (total / 5) * 100 + (total % 5) * 20;
    assert h / 100 == total / 5 && h % 100 == (total % 5) * 20;
    ReadFormatFixed2(h);
  }

  // ---------------------------------------------------------------------------
  // The whole calculation

  /** What calculateAndShow displays: total out of the maximum, percentage, grade and tier. */
  datatype GradeResult = GradeResult(total: int, maxTotal: int, percentage: real, percentText: string, grade: Grade, tier: Tier)

  /** The result for validated marks. */
  function Compute(marks: seq<int>): (r: GradeResult)
    requires |marks| == NumSubjects && ValidMarks(marks)
    ensures r.total == Sum(marks) && r.maxTotal == 500 && 0 <= r.total <= r.maxTotal
    ensures r.percentage == r.total as real / 5.0 && 0.0 <= r.percentage <= 100.0
    ensures r.percentText == PercentText(r.total) && ReadFixed2(r.percentText) == Some(r.total * 20)
    ensures r.grade == ComputeGrade(r.percentage) && r.tier == TierOf(r.percentage)
  {
    SumBounds(marks);
    var total := Sum(marks);
    PercentTextExact(total);
    var percentage := Percentage(total);
    GradeResult(total, NumSubjects * MaxMark, percentage, PercentText(total), ComputeGrade(percentage), TierOf(percentage))
  }

  /** marks[i] = m, seen as extending the filled prefix by one accepted mark. */
  method StoreMark(marks: array<int>, i: nat, m: int)
    requires i < marks.Length && ValidMarks(marks[..i]) && 0 <= m <= MaxMark
    modifies marks
    ensures marks[..i + 1] == old(marks[..i]) + [m]
    ensures marks[i + 1..] == old(marks[i + 1..])
    ensures ValidMarks(marks[..i + 1])
  {
    marks[i] := m;
    assert marks[..i + 1] == old(marks[..i]) + [m];
  }

  /** The validation half of calculateAndShow: the name check, then the loop that checks
      each mark field in turn and fills the marks array, stopping at the first failure. */
  method ReadForm(form: Form) returns (v: Validation, marks: array<int>)
    requires |form.markTexts| == NumSubjects
    ensures v == Validate(form)
    ensures v.Ok? ==> marks[..] == v.marks && ValidMarks(v.marks)
  {
    marks := new int[NumSubjects];
    var name := Trim(form.nameText);
    if name == [] {
      return EmptyName, marks;
    }
    ghost var checks := Checks(form.markTexts);
    assert Validate(form) == ValidateFrom(checks, 0, []);
    var i := 0;
    while i < marks.Length
      invariant 0 <= i <= marks.Length
      invariant ValidMarks(marks[..i])
      invariant ValidateFrom(checks, 0, []) == ValidateFrom(checks, i, marks[..i])
    {
      var c := CheckMark(form.markTexts[i]);
      assert c == checks[i];
      if !c.Accepted? {
        return Rejection(c, i), marks;
      }
      StoreMark(marks, i, c.mark);
      i := i + 1;
    }
    assert marks[..i] == marks[..];
    v := Ok(marks[..]);
  }

  /** The totalling loop of calculateAndShow. */
  method TotalOf(marks: array<int>) returns (total: int)
    ensures total == Sum(marks[..])
  {
    total := 0;
    var j := 0;
    while j < marks.Length
      invariant 0 <= j <= marks.Length
      invariant total == Sum(marks[..j])
    {
      assert marks[..j + 1][..j] == marks[..j];
      total := total + marks[j];
      j := j + 1;
    }
    assert marks[..j] == marks[..];
  }

  /** calculateAndShow: validate the form, then total the marks and derive the percentage,
      its text, the grade and the tier that are displayed. */
  method CalculateAndShow(form: Form) returns (v: Validation, shown: Option<GradeResult>)
    requires |form.markTexts| == NumSubjects
    ensures v == Validate(form)
    ensures v.Ok? ==> |v.marks| == NumSubjects && ValidMarks(v.marks)
    ensures shown == if v.Ok? then Some(Compute(v.marks)) else None
  {
    var marks;
    v, marks := ReadForm(form);
    if !v.Ok? {
      return v, None;
    }
    var total := TotalOf(marks);
    SumBounds(marks[..]);
    assert marks.Length == NumSubjects;
    var percentage := (total as real / (marks.Length as real * 100.0)) * 100.0;
    assert percentage == Percentage(total);
    shown := Some(GradeResult(total, marks.Length * MaxMark, percentage, PercentText(total), ComputeGrade(percentage), TierOf(percentage)));
  }

  /** The first worked example: [80, 90, 70, 85, 95] totals 420, 84.00 percent, grade A,
      green. */
  lemma AliceExample()
    ensures Compute([80, 90, 70, 85, 95]) == GradeResult(420, 500, 84.0, "84.00", A, High)
  {
    assert Sum([80, 90, 70, 85, 95]) == 420 by {
      assert Sum([80]) == 80 by { assert [80][..0] == []; }
      assert Sum([80, 90]) == 170 by { assert [80, 90][..1] == [80]; }
      assert Sum([80, 90, 70]) == 240 by { assert [80, 90, 70][..2] == [80, 90]; }
      assert Sum([80, 90, 70, 85]) == 325 by { assert [80, 90, 70, 85][..3] == [80, 90, 70]; }
      assert [80, 90, 70, 85, 95][..4] == [80, 90, 70, 85];
    }
    assert NatToString(84) == "84";
    assert PercentText(420) == "84.00";
  }

  /** Five 50s total 250, exactly 50.00 percent: grade D, yellow. */
  lemma FiftiesExample()
    ensures Compute([50, 50, 50, 50, 50]) == GradeResult(250, 500, 50.0, "50.00", D, Mid)
  {
    assert Sum([50, 50, 50, 50, 50]) == 250 by {
      assert Sum([50]) == 50 by { assert [50][..0] == []; }
      assert Sum([50, 50]) == 100 by { assert [50, 50][..1] == [50]; }
      assert Sum([50, 50, 50]) == 150 by { assert [50, 50, 50][..2] == [50, 50]; }
      assert Sum([50, 50, 50, 50]) == 200 by { assert [50, 50, 50, 50][..3] == [50, 50, 50]; }
      assert [50, 50, 50, 50, 50][..4] == [50, 50, 50, 50];
    }
    assert NatToString(50) == "50";
    assert PercentText(250) == "50.00";
  }

  /** Five 0s total 0, 0.00 percent: grade F, red. */
  lemma ZerosExample()
    ensures Compute([0, 0, 0, 0, 0]) == GradeResult(0, 500, 0.0, "0.00", F, Low)
  {
    assert Sum([0, 0, 0, 0, 0]) == 0 by {
      assert Sum([0]) == 0 by { assert [0][..0] == []; }
      assert Sum([0, 0]) == 0 by { assert [0, 0][..1] == [0]; }
      assert Sum([0, 0, 0]) == 0 by { assert [0, 0, 0][..2] == [0, 0]; }
      assert Sum([0, 0, 0, 0]) == 0 by { assert [0, 0, 0, 0][..3] == [0, 0, 0]; }
      assert [0, 0, 0, 0, 0][..4] == [0, 0, 0, 0];
    }
    assert PercentText(0) == "0.00";
  }
}
