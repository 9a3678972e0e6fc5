/**
  The spreadsheet text that `formatForCSV` builds (main.js) and the file
  content that `outputCSV` writes: one semicolon-separated row per
  assignment, with a `=HYPERLINK(...)` formula in the first column and
  each name made unique by its position.
 */
module Csv {
  import opened Assignments
  import opened Decimal

  /** What `${due_at}` writes: the date text, or `null` when there is none. */
  function DueText(d: Option<DueDate>): string {
    if d.Some? then d.value.text else "null"
  }

  /** What `${courseTitle}` writes: the title, or `undefined` when it was never set. */
  function TitleText(t: Option<string>): string {
    if t.Some? then t.value else "undefined"
  }

  /** `name + `@${index}``. */
  function UniqueName(name: string, index: nat): (r: string)
    ensures |r| > |name| && r[..|name|] == name && r[|name|] == '@'
    ensures AllDigits(r[|name| + 1..]) && ParseDigits(r[|name| + 1..]) == index
  {
    ParseNatToString(index);
    assert (name + "@" + NatToString(index))[|name| + 1..] == NatToString(index);
    name + "@" + NatToString(index)
  }

  /** The first `map` of formatForCSV: every assignment renamed by its zero-based index. */
  function MakeNamesUnique(s: seq<Assignment>): (r: seq<Assignment>)
    ensures |r| == |s|
  {
    seq(|s|, i requires 0 <= i < |s| => s[i].(name := UniqueName(s[i].name, i)))
  }

  /** The formula cell `=HYPERLINK("url","name")`. */
  function HyperlinkCell(url: string, name: string): string {
    "=HYPERLINK(\"" + url + "\",\"" + name + "\")"
  }

  /** One CSV row: formula; course title; an empty column; due date; FALSE, and a line break. */
  function Row(a: Assignment): (r: string)
    ensures |r| > 0 && r[|r| - 1] == '\n'
  {
    HyperlinkCell(a.htmlUrl, a.name) + ";" + TitleText(a.courseTitle) + ";;" + DueText(a.dueAt) + ";FALSE\n"
  }

  /** The second `map` of formatForCSV. */
  function Rows(s: seq<Assignment>): (r: seq<string>)
    ensures |r| == |s|
  {
    seq(|s|, i requires 0 <= i < |s| => Row(s[i]))
  }

  /** `rows.join('')`. */
  function Concat(rows: seq<string>): string
    decreases |rows|
  {
    if rows == [] then "" else Concat(rows[..|rows| - 1]) + rows[|rows| - 1]
  }

  function TotalLength(rows: seq<string>): nat
    decreases |rows|
  {
    if rows == [] then 0 else TotalLength(rows[..|rows| - 1]) + |rows[|rows| - 1]|
  }

  /** `formatForCSV(assignments)`. */
  function FormatForCSV(s: seq<Assignment>): (r: string)
    ensures s == [] ==> r == ""
  {
    Concat(Rows(MakeNamesUnique(s)))
  }

  /** What `outputCSV` writes to out.csv: the separator hint line, then the CSV text. */
  function CsvFileContent(s: seq<Assignment>): (r: string)
    ensures |r| >= 6 && r[..6] == "sep=;\n" && r[6..] == FormatForCSV(s)
  {
    "sep=;\n" + FormatForCSV(s)
  }

  // ---------------------------------------------------------------------------
  // Unique names

  lemma DigitsHaveNoAt(s: string)
    requires AllDigits(s)
    ensures '@' !in s && ';' !in s && '\n' !in s
  {
  }

  /**
    Renaming keeps every other field, each new name is the old name, `@`, and
    a number that reads back as the position, and no two new names are equal,
    whatever the original names were.
   */
  lemma {:induction false} MakeNamesUniqueSpec(s: seq<Assignment>)
    ensures var r := MakeNamesUnique(s);
      && (forall i :: 0 <= i < |s| ==> r[i] == s[i].(name := r[i].name))
      && (forall i :: 0 <= i < |s| ==>
            |r[i].name| > |s[i].name| && r[i].name[..|s[i].name|] == s[i].name && r[i].name[|s[i].name|] == '@'
            && AllDigits(r[i].name[|s[i].name| + 1..]) && ParseDigits(r[i].name[|s[i].name| + 1..]) == i)
      && (forall i, j :: 0 <= i < j < |s| ==> r[i].name != r[j].name)
  {
    // Distinctness needs no steps beyond `UniqueName`'s contract: if two new
    // names were equal with prefixes of different lengths, the longer prefix's
    // `@` would sit inside the other's digit suffix; with equal lengths, the
    // digit suffixes would be equal and read back as the same position.
  }

  // ---------------------------------------------------------------------------
  // Concatenation of rows

  /** Appending an assignment appends exactly its row, named by its position. */
  lemma {:induction false} FormatForCSVAppend(s: seq<Assignment>, a: Assignment)
    ensures FormatForCSV(s + [a]) == FormatForCSV(s) + Row(a.(name := UniqueName(a.name, |s|)))
  {
    var rows := Rows(MakeNamesUnique(s + [a]));
    assert rows[..|s|] == Rows(MakeNamesUnique(s));
  }

  lemma {:induction false} ConcatLength(rows: seq<string>)
    ensures |Concat(rows)| == TotalLength(rows)
    decreases |rows|
  {
    if rows != [] {
      ConcatLength(rows[..|rows| - 1]);
    }
  }

  /** The rows are joined with no separator: the text is exactly as long as its rows together. */
  lemma {:induction false} FormatForCSVLength(s: seq<Assignment>)
    ensures |FormatForCSV(s)| == TotalLength(Rows(MakeNamesUnique(s)))
  {
    ConcatLength(Rows(MakeNamesUnique(s)));
  }

  // ---------------------------------------------------------------------------
  // One line per assignment

  function CountChar(c: char, s: string): nat
    decreases |s|
  {
    if s == [] then 0 else CountChar(c, s[..|s| - 1]) + (if s[|s| - 1] == c then 1 else 0)
  }

  lemma {:induction false} CountCharAppend(c: char, x: string, y: string)
    ensures CountChar(c, x + y) == CountChar(c, x) + CountChar(c, y)
    decreases |y|
  {
    if y == [] {
      assert x + y == x;
    } else {
      assert (x + y)[..|x + y| - 1] == x + y[..|y| - 1];
      CountCharAppend(c, x, y[..|y| - 1]);
    }
  }

  lemma {:induction false} CountCharAbsent(c: char, s: string)
    requires c !in s
    ensures CountChar(c, s) == 0
    decreases |s|
  {
    if s != [] {
      assert s[..|s| - 1] <= s;
      CountCharAbsent(c, s[..|s| - 1]);
    }
  }

  /** No text field of the assignment holds a line break. */
  predicate SingleLineFields(a: Assignment) {
    '\n' !in a.name && '\n' !in a.htmlUrl && '\n' !in TitleText(a.courseTitle) && '\n' !in DueText(a.dueAt)
  }

  lemma RowHasOneLineBreak(a: Assignment)
    requires SingleLineFields(a)
    ensures CountChar('\n', Row(a)) == 1
  {
    var body := HyperlinkCell(a.htmlUrl, a.name) + ";" + TitleText(a.courseTitle) + ";;" + DueText(a.dueAt) + ";FALSE";
    assert Row(a) == body + "\n";
    CountCharAbsent('\n', body);
    CountCharAppend('\n', body, "\n");
    assert CountChar('\n', "\n") == 1 by {
      assert "\n"[..0] == [];
    }
  }

  /**
    When no field holds a line break, the CSV text holds exactly one line
    break per assignment, and a non-empty list ends with one.
   */
  lemma {:induction false} FormatForCSVLineCount(s: seq<Assignment>)
    requires forall i :: 0 <= i < |s| ==> SingleLineFields(s[i])
    ensures CountChar('\n', FormatForCSV(s)) == |s|
    ensures s != [] ==> FormatForCSV(s)[|FormatForCSV(s)| - 1] == '\n'
    decreases |s|
  {
    if s != [] {
      var init, a := s[..|s| - 1], s[|s| - 1];
      assert s == init + [a];
      FormatForCSVLineCount(init);
      FormatForCSVAppend(init, a);
      var named := a.(name := UniqueName(a.name, |init|));
      DigitsHaveNoAt(NatToString(|init|));
      assert named.name == a.name + "@" + NatToString(|init|);
      RowHasOneLineBreak(named);
      CountCharAppend('\n', FormatForCSV(init), Row(named));
    }
  }

  // ---------------------------------------------------------------------------
  // Five columns per row

  /** The fields a reader splitting at `sep` sees. */
  function SplitOn(sep: char, s: string): (r: seq<string>)
    ensures |r| >= 1
    decreases |s|
  {
    if s == [] then [""]
    else
      var rest := SplitOn(sep, s[1..]);
      if s[0] == sep then [""] + rest else [[s[0]] + rest[0]] + rest[1..]
  }

  lemma {:induction false} SplitOnAbsent(sep: char, x: string)
    requires sep !in x
    ensures SplitOn(sep, x) == [x]
    decreases |x|
  {
    if x != [] {
      assert x[0] != sep;
      assert sep !in x[1..] by {
        forall k | 0 <= k < |x[1..]| ensures x[1..][k] != sep {
          assert x[1..][k] == x[k + 1];
        }
      }
      SplitOnAbsent(sep, x[1..]);
      assert [x[0]] + x[1..] == x;
    }
  }

  lemma {:induction false} SplitOnField(sep: char, x: string, y: string)
    requires sep !in x
    ensures SplitOn(sep, x + [sep] + y) == [x] + SplitOn(sep, y)
    decreases |x|
  {
    if x == [] {
      assert x + [sep] + y == [sep] + y;
      assert ([sep] + y)[1..] == y;
    } else {
      assert (x + [sep] + y)[1..] == x[1..] + [sep] + y;
      SplitOnField(sep, x[1..], y);
      assert [x[0]] + x[1..] == x;
    }
  }

  lemma RowAsFields(h: string, t: string, d: string)
    ensures h + ";" + t + ";;" + d + ";FALSE\n" == h + [';'] + (t + [';'] + ("" + [';'] + (d + [';'] + "FALSE\n")))
  {
  }

  /**
    When no field holds a semicolon, a reader splitting a row at `;` (as the
    `sep=;` line tells spreadsheets to) sees exactly five columns: the link
    formula, the course title, an empty column, the due date, and `FALSE`.
   */
  lemma RowColumns(a: Assignment)
    requires ';' !in a.htmlUrl && ';' !in a.name && ';' !in TitleText(a.courseTitle) && ';' !in DueText(a.dueAt)
    ensures SplitOn(';', Row(a)) ==
      [HyperlinkCell(a.htmlUrl, a.name), TitleText(a.courseTitle), "", DueText(a.dueAt), "FALSE\n"]
  {
    var h, t, d := HyperlinkCell(a.htmlUrl, a.name), TitleText(a.courseTitle), DueText(a.dueAt);
    var c4 := d + [';'] + "FALSE\n";
    var c3 := "" + [';'] + c4;
    var c2 := t + [';'] + c3;
    RowAsFields(h, t, d);
    SplitOnField(';', h, c2);
    SplitOnField(';', t, c3);
    SplitOnField(';', "", c4);
    SplitOnField(';', d, "FALSE\n");
    SplitOnAbsent(';', "FALSE\n");
  }

  /** Every row of the CSV text has five columns when the original fields hold no semicolon. */
  lemma UniqueRowColumns(a: Assignment, index: nat)
    requires ';' !in a.htmlUrl && ';' !in a.name && ';' !in TitleText(a.courseTitle) && ';' !in DueText(a.dueAt)
    ensures |SplitOn(';', Row(a.(name := UniqueName(a.name, index))))| == 5
  {
    DigitsHaveNoAt(NatToString(index));
    RowColumns(a.(name := UniqueName(a.name, index)));
  }
}
