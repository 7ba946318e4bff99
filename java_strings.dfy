/** The Java library string operations the calculator relies on, stated exactly:
    String.trim, Integer.parseInt, Integer.toString, and the comma / line joins
    that the CSV writer performs with PrintWriter.print and println. */
module JavaStrings {

  datatype Option<+T> = None | Some(value: T)

  /** The range of a Java `int`; Integer.parseInt refuses anything outside it. */
  const IntMin: int := -0x8000_0000
  const IntMax: int := 0x7fff_ffff

  // ---------------------------------------------------------------------------
  // String.trim

  /** String.trim removes every leading and trailing character whose code is at most U+0020. */
  predicate IsSpace(c: char) {
    c <= ' '
  }

  /** The first index at or after `i` that holds a non-space, or |s|. */
  function SkipSpaces(s: string, i: nat): (b: nat)
    requires i <= |s|
    ensures i <= b <= |s|
    ensures forall k :: i <= k < b ==> IsSpace(s[k])
    ensures b == |s| || !IsSpace(s[b])
    decreases |s| - i
  {
    if i < |s| && IsSpace(s[i]) then SkipSpaces(s, i + 1) else i
  }

  /** The end `e` of s[lo..j] once the spaces at its end are dropped. */
  function DropSpaces(s: string, lo: nat, j: nat): (e: nat)
    requires lo <= j <= |s|
    ensures lo <= e <= j
    ensures forall k :: e <= k < j ==> IsSpace(s[k])
    ensures e == lo || !IsSpace(s[e - 1])
    decreases j
  {
    if lo < j && IsSpace(s[j - 1]) then DropSpaces(s, lo, j - 1) else j
  }

  /** String.trim: advance past the leading spaces, then back off the trailing ones. */
  function Trim(s: string): string {
    var b := SkipSpaces(s, 0);
    s[b..DropSpaces(s, b, |s|)]
  }

  /** Trim keeps a contiguous part of the string, everything before and after it is space,
      the result is empty exactly when the string is all spaces, and otherwise starts and
      ends with a non-space. */
  lemma TrimSpec(s: string)
    ensures var r, b := Trim(s), SkipSpaces(s, 0);
      && b + |r| <= |s| && r == s[b..b + |r|]
      && (forall k :: 0 <= k < b ==> IsSpace(s[k]))
      && (forall k :: b + |r| <= k < |s| ==> IsSpace(s[k]))
      && (r == [] <==> forall k :: 0 <= k < |s| ==> IsSpace(s[k]))
      && (r == [] || (!IsSpace(r[0]) && !IsSpace(r[|r| - 1])))
  {
    var b := SkipSpaces(s, 0);
    var e := DropSpaces(s, b, |s|);
    var r := Trim(s);
    assert r == s[b..e];
    assert r == s[b..b + |r|];
    if b < |s| {
      assert e > b;
    }
  }

  /** A string with no space at either end is its own trim. */
  lemma TrimOfTrimmed(s: string)
    requires s == [] || (!IsSpace(s[0]) && !IsSpace(s[|s| - 1]))
    ensures Trim(s) == s
  {
    assert SkipSpaces(s, 0) == 0;
    assert DropSpaces(s, 0, |s|) == |s|;
  }

  /** Trimming twice is trimming once. */
  lemma TrimIdempotent(s: string)
    ensures Trim(Trim(s)) == Trim(s)
  {
    TrimSpec(s);
    TrimOfTrimmed(Trim(s));
  }

  // ---------------------------------------------------------------------------
  // Decimal digits, Integer.toString and Integer.parseInt

  predicate IsDigit(c: char) {
    '0' <= c <= '9'
  }

  predicate AllDigits(s: string) {
    forall k :: 0 <= k < |s| ==> IsDigit(s[k])
  }

  function DigitValue(c: char): (d: nat)
    requires IsDigit(c)
    ensures d < 10
  {
    c as int - '0' as int
  }

  function DigitChar(d: nat): (c: char)
    requires d < 10
    ensures IsDigit(c) && DigitValue(c) == d
  {
    ('0' as int + d) as char
  }

  /** The value of a string of decimal digits, most significant first. */
  function DigitsValue(s: string): nat
    requires AllDigits(s)
  {
    if s == [] then 0 else DigitsValue(s[..|s| - 1]) * 10 + DigitValue(s[|s| - 1])
  }

  function Pow10(n: nat): (p: nat)
    ensures p >= 1
  {
    if n == 0 then 1 else 10 * Pow10(n - 1)
  }

  /** A digit string is worth at least its leading digit times the place value of that digit;
      this is what makes a long number overflow an int. */
  lemma {:induction false} LeadingDigitBound(s: string)
    requires s != [] && AllDigits(s)
    ensures DigitsValue(s) >= DigitValue(s[0]) * Pow10(|s| - 1)
  {
    if |s| == 1 {
      assert s[..0] == [];
    } else {
      var init := s[..|s| - 1];
      assert init[0] == s[0];
      LeadingDigitBound(init);
      calc {
        DigitsValue(s);
      >=
        DigitsValue(init) * 10;
      >=
        DigitValue(s[0]) * Pow10(|init| - 1) * 10;
      ==
        DigitValue(s[0]) * Pow10(|s| - 1);
      }
    }
  }

  /** Integer.toString of a non-negative value: its decimal digits without leading zeros. */
  function NatToString(n: nat): (r: string)
    ensures |r| >= 1 && AllDigits(r)
    ensures DigitsValue(r) == n
    ensures r[0] == '0' <==> n == 0
    ensures n == 0 ==> r == "0"
  {
    if n < 10 then
      [DigitChar(n)]
    else
      var r := NatToString(n / 10) + [DigitChar(n % 10)];
      assert r[..|r| - 1] == NatToString(n / 10);
      r
  }

  /** Integer.toString (and String.valueOf) of any int. */
  function IntToString(i: int): (r: string)
    ensures |r| >= 1 && (r[0] == '-' <==> i < 0)
  {
    if i < 0 then "-" + NatToString(-i) else NatToString(i)
  }

  /** Integer.parseInt: an optional '+' or '-' and then one or more ASCII digits,
      whose value must fit in a Java int; anything else is a NumberFormatException,
      modelled as None. */
  function ParseInt(s: string): (r: Option<int>)
    ensures r.Some? ==> IntMin <= r.value <= IntMax
    ensures r.Some? ==> (
      && s != []
      && var digits := if s[0] == '-' || s[0] == '+' then s[1..] else s;
         && digits != [] && AllDigits(digits)
         && r.value == (if s[0] == '-' then -(DigitsValue(digits) as int) else DigitsValue(digits)))
    ensures (
      && s != []
      && var digits := if s[0] == '-' || s[0] == '+' then s[1..] else s;
         && digits != [] && AllDigits(digits)
         && IntMin <= (if s[0] == '-' then -(DigitsValue(digits) as int) else DigitsValue(digits)) <= IntMax)
      ==> r.Some?
  {
    if s == [] then None
    else
      var digits := if s[0] == '-' || s[0] == '+' then s[1..] else s;
      if digits == [] || !AllDigits(digits) then None
      else
        var magnitude: int := DigitsValue(digits);
        var v: int := if s[0] == '-' then -magnitude else magnitude;
        if IntMin <= v <= IntMax then Some(v) else None
  }

  /** An unsigned digit string parses to its value when that value fits in an int. */
  lemma ParseIntOfDigits(s: string)
    requires s != [] && AllDigits(s) && DigitsValue(s) <= IntMax
    ensures ParseInt(s) == Some(DigitsValue(s))
  {
  }

  /** An unsigned digit string whose value does not fit in an int is refused. */
  lemma ParseIntOverflow(s: string)
    requires s != [] && AllDigits(s) && DigitsValue(s) > IntMax
    ensures ParseInt(s) == None
  {
  }

  /** parseInt reads back what toString prints, for every Java int. */
  lemma {:induction false} ParseIntToString(i: int)
    requires IntMin <= i <= IntMax
    ensures ParseInt(IntToString(i)) == Some(i)
  {
    if i < 0 {
      var t := NatToString(-i);
      assert IntToString(i)[1..] == t;
    } else {
      var t := NatToString(i);
      assert t[0] != '-' && t[0] != '+';
    }
  }

  /** The decimal text of a non-negative value contains no space, so trimming keeps it. */
  lemma NatToStringTrimmed(n: nat)
    ensures Trim(NatToString(n)) == NatToString(n)
  {
    var s := NatToString(n);
    assert IsDigit(s[0]) && IsDigit(s[|s| - 1]);
    TrimOfTrimmed(s);
  }

  // ---------------------------------------------------------------------------
  // Joining with a separator, and splitting back

  /** The fields printed one after another with `sep` between neighbours (not after the last). */
  function Join(parts: seq<string>, sep: char): string {
    if |parts| == 0 then ""
    else if |parts| == 1 then parts[0]
    else Join(parts[..|parts| - 1], sep) + [sep] + parts[|parts| - 1]
  }

  /** Printing the fields up to k + 1 is printing those up to k, a separator and field k. */
  lemma JoinPrefixStep(parts: seq<string>, k: nat, sep: char)
    requires 1 <= k < |parts|
    ensures Join(parts[..k + 1], sep) == Join(parts[..k], sep) + [sep] + parts[k]
  {
    assert parts[..k + 1][..k] == parts[..k];
  }

  /** The lines printed one after another, each followed by the terminator (println after each). */
  function Terminated(lines: seq<string>, term: char): string {
    if lines == [] then "" else Terminated(lines[..|lines| - 1], term) + lines[|lines| - 1] + [term]
  }

  /** The last position of `c` in `s`, or -1. */
  function LastIndexOf(s: string, c: char): (r: int)
    ensures -1 <= r < |s|
    ensures r >= 0 ==> s[r] == c && c !in s[r + 1..]
    ensures r < 0 ==> c !in s
  {
    if s == [] then -1
    else if s[|s| - 1] == c then |s| - 1
    else
      var r := LastIndexOf(s[..|s| - 1], c);
      assert r >= 0 ==> s[r + 1..] == s[..|s| - 1][r + 1..] + [s[|s| - 1]];
      assert r < 0 ==> s == s[..|s| - 1] + [s[|s| - 1]];
      r
  }

  /** The pieces of `s` between occurrences of `sep` (String.split without dropping empties). */
  function SplitOn(s: string, sep: char): (parts: seq<string>)
    ensures |parts| >= 1
    decreases |s|
  {
    var j := LastIndexOf(s, sep);
    if j < 0 then [s] else SplitOn(s[..j], sep) + [s[j + 1..]]
  }

  /** What a line reader returns for a text: the pieces between terminators, a final
      terminator ending the last line rather than starting an empty one. */
  function ReadLines(text: string, term: char): seq<string> {
    if text == [] then []
    else if text[|text| - 1] == term then SplitOn(text[..|text| - 1], term)
    else SplitOn(text, term)
  }

  lemma LastIndexAfterSeparator(a: string, sep: char, b: string)
    requires sep !in b
    ensures LastIndexOf(a + [sep] + b, sep) == |a|
  {
    var s := a + [sep] + b;
    assert s[|a|] == sep && s[|a| + 1..] == b;
    assert forall k :: |a| < k < |s| ==> s[k] == b[k - |a| - 1];
  }

  /** Splitting the joined text on the separator gives the fields back, provided no field
      contains the separator. */
  lemma {:induction false} SplitJoin(parts: seq<string>, sep: char)
    requires |parts| >= 1
    requires forall k :: 0 <= k < |parts| ==> sep !in parts[k]
    ensures SplitOn(Join(parts, sep), sep) == parts
  {
    if |parts| == 1 {
      assert LastIndexOf(parts[0], sep) < 0;
    } else {
      var init := parts[..|parts| - 1];
      var last := parts[|parts| - 1];
      assert Join(parts, sep) == Join(init, sep) + [sep] + last;
      SplitOnStep(Join(init, sep), sep, last);
      SplitJoin(init, sep);
      assert parts == init + [last];
    }
  }

  /** Splitting at the last separator: the pieces of what comes before it, and the rest. */
  lemma SplitOnStep(a: string, sep: char, b: string)
    requires sep !in b
    ensures SplitOn(a + [sep] + b, sep) == SplitOn(a, sep) + [b]
  {
    var s := a + [sep] + b;
    LastIndexAfterSeparator(a, sep, b);
    assert s[..|a|] == a;
    assert s[|a| + 1..] == b;
  }

  /** Joining two non-empty lists of fields is joining each and putting a separator between. */
  lemma {:induction false} JoinAppend(a: seq<string>, b: seq<string>, sep: char)
    requires |a| >= 1 && |b| >= 1
    ensures Join(a + b, sep) == Join(a, sep) + [sep] + Join(b, sep)
  {
    if |b| == 1 {
      assert (a + b)[..|a + b| - 1] == a;
    } else {
      var init := b[..|b| - 1];
      JoinAppend(a, init, sep);
      assert (a + b)[..|a + b| - 1] == a + init;
    }
  }

  /** A character that is not the separator and occurs in no field does not occur in the join. */
  lemma {:induction false} JoinAvoids(parts: seq<string>, sep: char, c: char)
    requires c != sep
    requires forall k :: 0 <= k < |parts| ==> c !in parts[k]
    ensures c !in Join(parts, sep)
  {
    if |parts| > 1 {
      JoinAvoids(parts[..|parts| - 1], sep, c);
    }
  }

  /** Terminating every line is joining them and terminating the last. */
  lemma {:induction false} TerminatedIsJoin(lines: seq<string>, term: char)
    requires |lines| >= 1
    ensures Terminated(lines, term) == Join(lines, term) + [term]
  {
    if |lines| > 1 {
      TerminatedIsJoin(lines[..|lines| - 1], term);
    } else {
      assert lines[..0] == [];
    }
  }

  /** Reading the lines of a terminated text gives them back, provided no line contains
      the terminator. */
  lemma ReadLinesTerminated(lines: seq<string>, term: char)
    requires forall k :: 0 <= k < |lines| ==> term !in lines[k]
    ensures ReadLines(Terminated(lines, term), term) == lines
  {
    if lines != [] {
      TerminatedIsJoin(lines, term);
      var j := Join(lines, term);
      assert (j + [term])[..|j|] == j;
      SplitJoin(lines, term);
    }
  }
}
