/**
  The workspace export (src/notion.js): each assignment becomes a database
  page, and a `Requester` submits the pages one at a time, in list order,
  reporting progress after every attempt and carrying on after a failed one.
 */
module Notion {
  import opened Assignments
  import opened Decimal

  // ---------------------------------------------------------------------------
  // Page construction

  /**
    A calendar date in the local time zone, as `getFullYear()`, `getMonth()`
    (zero-based) and `getDate()` report it.
   */
  datatype CalendarDate = CalendarDate(year: nat, monthIndex: nat, day: nat)

  type LocalDate = d: CalendarDate | d.monthIndex < 12 && 1 <= d.day <= 31
    witness CalendarDate(1970, 0, 1)

  /** The `justTheDate` text: the year, `-`, the month (1-12) and `-`, the day, each padded to two digits. */
  function DateString(d: LocalDate): (r: string)
    ensures |r| == |NatToString(d.year)| + 6
    ensures r[..|r| - 6] == NatToString(d.year) && r[|r| - 6] == '-' && r[|r| - 3] == '-'
  {
    NatToString(d.year) + "-" + PadStart2(NatToString(d.monthIndex + 1)) + "-" + PadStart2(NatToString(d.day))
  }

  /** Reads `Y-MM-DD` back as (year, month, day). */
  function ParseDateString(s: string): Option<(nat, nat, nat)> {
    if |s| >= 7 && s[|s| - 6] == '-' && s[|s| - 3] == '-'
       && AllDigits(s[..|s| - 6]) && AllDigits(s[|s| - 5..|s| - 3]) && AllDigits(s[|s| - 2..])
    then Some((ParseDigits(s[..|s| - 6]), ParseDigits(s[|s| - 5..|s| - 3]), ParseDigits(s[|s| - 2..])))
    else None
  }

  /** The date text reads back as the year, the one-based month and the day it was made from. */
  lemma DateStringRoundTrip(d: LocalDate)
    ensures ParseDateString(DateString(d)) == Some((d.year, d.monthIndex + 1, d.day))
  {
    var y, m, dd := NatToString(d.year), PadStart2(NatToString(d.monthIndex + 1)), PadStart2(NatToString(d.day));
    assert AllDigits(y) && ParseDigits(y) == d.year by {
      ParseNatToString(d.year);
    }
    assert |m| == 2 && AllDigits(m) && ParseDigits(m) == d.monthIndex + 1 by {
      PaddedTwoDigits(d.monthIndex + 1);
    }
    assert |dd| == 2 && AllDigits(dd) && ParseDigits(dd) == d.day by {
      PaddedTwoDigits(d.day);
    }
    assert DateString(d) == y + "-" + m + "-" + dd;
    ParseDashed(y, m, dd);
  }

  /** Any `y-mm-dd` built from digit strings reads back as the numbers those strings denote. */
  lemma ParseDashed(y: string, m: string, dd: string)
    requires |y| >= 1 && |m| == 2 && |dd| == 2
    requires AllDigits(y) && AllDigits(m) && AllDigits(dd)
    ensures ParseDateString(y + "-" + m + "-" + dd) == Some((ParseDigits(y), ParseDigits(m), ParseDigits(dd)))
  {
    DashedParts(y, m, dd);
  }

  /** The three parts of `y-mm-dd` sit where the reader looks for them. */
  lemma DashedParts(y: string, m: string, dd: string)
    requires |y| >= 1 && |m| == 2 && |dd| == 2
    ensures var s := y + "-" + m + "-" + dd;
      && |s| >= 7 && s[|s| - 6] == '-' && s[|s| - 3] == '-'
      && s[..|s| - 6] == y && s[|s| - 5..|s| - 3] == m && s[|s| - 2..] == dd
  {
  }

  /** A date property `{ start, end }`. */
  datatype DateProperty = DateProperty(start: string, end: Option<string>)

  /** The page payload handed to `pages.create`. */
  datatype Page = Page(
    databaseId: string,          // parent.database_id
    icon: string,                // the emoji icon
    dueBy: DateProperty,         // 'Due By'
    classSelect: Option<string>, // 'Class' select name: the course title
    nameTitle: seq<string>,      // 'Name' title: the text contents of its parts
    doBy: DateProperty,          // 'Do By'
    canvasUrl: string)           // 'Canvas' url

  const LightningIcon: string := "\U{26A1}"

  /** `makeAssignmentPage(assignment, databaseId)`, given the local date `new Date(due_at)` falls on. */
  function MakeAssignmentPage(a: Assignment, databaseId: string, date: LocalDate): (p: Page)
    ensures p.databaseId == databaseId && p.icon == LightningIcon
    ensures p.classSelect == a.courseTitle && p.nameTitle == [a.name] && p.canvasUrl == a.htmlUrl
    ensures p.dueBy == p.doBy && p.dueBy.end.None?
    ensures ParseDateString(p.dueBy.start) == Some((date.year, date.monthIndex + 1, date.day))
  {
    DateStringRoundTrip(date);
    var due := DateProperty(DateString(date), None);
    Page(databaseId, LightningIcon, due, a.courseTitle, [a.name], due, a.htmlUrl)
  }

  /** `assignments.map(assignment => makeAssignmentPage(assignment, databaseId))`; `localDate` stands for the `Date` conversion. */
  function MakePages(assignments: seq<Assignment>, databaseId: string, localDate: Assignment -> LocalDate): (pages: seq<Page>)
    ensures |pages| == |assignments|
    ensures forall i :: 0 <= i < |assignments| ==>
      && pages[i].databaseId == databaseId && pages[i].icon == LightningIcon
      && pages[i].nameTitle == [assignments[i].name]
      && pages[i].classSelect == assignments[i].courseTitle
      && pages[i].canvasUrl == assignments[i].htmlUrl
      && pages[i].dueBy == pages[i].doBy && pages[i].dueBy.end.None?
      && ParseDateString(pages[i].dueBy.start)
         == Some((localDate(assignments[i]).year, localDate(assignments[i]).monthIndex + 1, localDate(assignments[i]).day))
  {
    seq(|assignments|, i requires 0 <= i < |assignments| =>
      MakeAssignmentPage(assignments[i], databaseId, localDate(assignments[i])))
  }

  // ---------------------------------------------------------------------------
  // Submission

  /** What one remote `pages.create` call does: it creates the page or fails with an error. */
  datatype CreateOutcome = Created | Failed(error: string)

  /**
    A line written to the console: a progress line (`console.log`) or a caught
    error (`console.error`, modelled by the error's message).
   */
  datatype ConsoleLine = Progress(page: nat, total: nat) | Error(message: string)

  /** The text of a console line; a progress line reads `Created page ${page} of ${total}`. */
  function LineText(line: ConsoleLine): string {
    match line
    case Progress(page, total) => "Created page " + NatToString(page) + " of " + NatToString(total)
    case Error(message) => message
  }

  /** What `makeAssignmentFromPage` writes for one outcome: the caught error, or nothing. */
  function ErrorReport(o: CreateOutcome): seq<ConsoleLine> {
    if o.Failed? then [Error(o.error)] else []
  }

  /** The console lines of attempt `i`: its error, if it failed, and then its progress line numbered `i + 1`. */
  function AttemptLines(o: CreateOutcome, i: nat, total: nat): seq<ConsoleLine> {
    ErrorReport(o) + [Progress(i + 1, total)]
  }

  /** The console lines of attempts `lo` up to `hi`: per page, its error if any, then its progress line. */
  function Transcript(outcome: nat -> CreateOutcome, lo: nat, hi: nat, total: nat): seq<ConsoleLine>
    decreases hi - lo
  {
    if hi <= lo then [] else AttemptLines(outcome(lo), lo, total) + Transcript(outcome, lo + 1, hi, total)
  }

  /** One more attempt extends the transcript at its end. */
  lemma {:induction false} TranscriptSnoc(outcome: nat -> CreateOutcome, lo: nat, hi: nat, total: nat)
    requires lo <= hi
    ensures Transcript(outcome, lo, hi + 1, total) == Transcript(outcome, lo, hi, total) + AttemptLines(outcome(hi), hi, total)
    decreases hi - lo
  {
    if lo < hi {
      TranscriptSnoc(outcome, lo + 1, hi, total);
    }
  }

  /** The indices `lo`, `lo + 1`, ..., `hi - 1`. */
  function Range(lo: nat, hi: nat): (r: seq<nat>)
    requires lo <= hi
    ensures |r| == hi - lo && forall k :: 0 <= k < |r| ==> r[k] == lo + k
  {
    seq(hi - lo, k requires 0 <= k < hi - lo => lo + k)
  }

  lemma RangeSnoc(lo: nat, i: nat)
    requires lo <= i
    ensures Range(lo, i + 1) == Range(lo, i) + [i]
  {
  }

  lemma RangeSplit(lo: nat, mid: nat, hi: nat)
    requires lo <= mid <= hi
    ensures Range(lo, hi) == Range(lo, mid) + Range(mid, hi)
  {
  }

  lemma RangeCons(lo: nat, hi: nat)
    requires lo < hi
    ensures Range(lo, hi) == [lo] + Range(lo + 1, hi)
  {
  }

  predicate Present(pages: seq<Option<Page>>, lo: nat, hi: nat) {
    hi <= |pages| && forall i :: lo <= i < hi ==> pages[i].Some?
  }

  /** The payloads of pages `lo` up to `hi`. */
  function Payloads(pages: seq<Option<Page>>, lo: nat, hi: nat): (r: seq<Page>)
    requires lo <= hi && Present(pages, lo, hi)
    ensures |r| == hi - lo && forall k :: 0 <= k < |r| ==> pages[lo + k] == Some(r[k])
  {
    seq(hi - lo, k requires 0 <= k < hi - lo => pages[lo + k].value)
  }

  lemma PayloadsSnoc(pages: seq<Option<Page>>, lo: nat, i: nat)
    requires lo <= i && Present(pages, lo, i + 1)
    ensures Payloads(pages, lo, i + 1) == Payloads(pages, lo, i) + [pages[i].value]
  {
  }

  lemma PayloadsSplit(pages: seq<Option<Page>>, lo: nat, mid: nat, hi: nat)
    requires lo <= mid <= hi && Present(pages, lo, hi)
    ensures Payloads(pages, lo, hi) == Payloads(pages, lo, mid) + Payloads(pages, mid, hi)
  {
  }

  /** Where `next()` stops when it starts at `lo`: the first index that is past the end or holds no page. */
  function StopIndex(pages: seq<Option<Page>>, lo: nat): nat
    decreases |pages| - lo
  {
    if lo < |pages| && pages[lo].Some? then StopIndex(pages, lo + 1) else lo
  }

  /** `StopIndex` is the first gap at or after `lo`: every index before it holds a page, and it does not. */
  lemma {:induction false} StopIndexSpec(pages: seq<Option<Page>>, lo: nat)
    ensures lo <= StopIndex(pages, lo)
    ensures lo <= |pages| ==> StopIndex(pages, lo) <= |pages|
    ensures forall i :: lo <= i < StopIndex(pages, lo) ==> i < |pages| && pages[i].Some?
    ensures StopIndex(pages, lo) >= |pages| || pages[StopIndex(pages, lo)].None?
    decreases |pages| - lo
  {
    if lo < |pages| && pages[lo].Some? {
      StopIndexSpec(pages, lo + 1);
    }
  }

  /** A dense list of N pages is submitted in full: N attempts. */
  lemma DenseBatchRunsToEnd(pages: seq<Option<Page>>)
    requires forall i :: 0 <= i < |pages| ==> pages[i].Some?
    ensures StopIndex(pages, 0) == |pages|
  {
    StopIndexSpec(pages, 0);
  }

  /** With the first missing entry at `k`, exactly the `k` pages before it are submitted. */
  lemma FirstGapEndsBatch(pages: seq<Option<Page>>, k: nat)
    requires k < |pages| && pages[k].None?
    requires forall i :: 0 <= i < k ==> pages[i].Some?
    ensures StopIndex(pages, 0) == k
  {
    StopIndexSpec(pages, 0);
  }

  /** The page numbers of the progress lines among console lines, in order. */
  function ProgressNumbers(lines: seq<ConsoleLine>): seq<nat>
    decreases |lines|
  {
    if lines == [] then []
    else (if lines[0].Progress? then [lines[0].page] else []) + ProgressNumbers(lines[1..])
  }

  /** The messages of the error lines among console lines, in order. */
  function ErrorMessages(lines: seq<ConsoleLine>): seq<string>
    decreases |lines|
  {
    if lines == [] then []
    else (if lines[0].Error? then [lines[0].message] else []) + ErrorMessages(lines[1..])
  }

  /** The number of failed attempts among `lo` up to `hi`. */
  function FailureCount(outcome: nat -> CreateOutcome, lo: nat, hi: nat): nat
    decreases hi - lo
  {
    if hi <= lo then 0 else (if outcome(lo).Failed? then 1 else 0) + FailureCount(outcome, lo + 1, hi)
  }

  /** Reading progress numbers distributes over joined console output. */
  lemma {:induction false} ProgressAppend(x: seq<ConsoleLine>, y: seq<ConsoleLine>)
    ensures ProgressNumbers(x + y) == ProgressNumbers(x) + ProgressNumbers(y)
    decreases |x|
  {
    if x == [] {
      assert x + y == y;
    } else {
      assert (x + y)[0] == x[0] && (x + y)[1..] == x[1..] + y;
      ProgressAppend(x[1..], y);
    }
  }

  /** Reading error messages distributes over joined console output. */
  lemma {:induction false} ErrorsAppend(x: seq<ConsoleLine>, y: seq<ConsoleLine>)
    ensures ErrorMessages(x + y) == ErrorMessages(x) + ErrorMessages(y)
    decreases |x|
  {
    if x == [] {
      assert x + y == y;
    } else {
      assert (x + y)[0] == x[0] && (x + y)[1..] == x[1..] + y;
      ErrorsAppend(x[1..], y);
    }
  }

  /** One attempt writes its error, if any, and then exactly one progress line. */
  lemma StepLines(o: CreateOutcome, i: nat, total: nat)
    ensures ProgressNumbers(AttemptLines(o, i, total)) == [i + 1]
    ensures ErrorMessages(AttemptLines(o, i, total)) == if o.Failed? then [o.error] else []
  {
    var step := AttemptLines(o, i, total);
    var line := Progress(i + 1, total);
    assert [line][1..] == [];
    assert ProgressNumbers([line]) == [i + 1] && ErrorMessages([line]) == [];
    if o.Failed? {
      assert step == [Error(o.error), line];
      assert step[1..] == [line];
      assert ProgressNumbers(step) == ProgressNumbers([line]);
      assert ErrorMessages(step) == [o.error] + ErrorMessages([line]);
    } else {
      assert step == [line];
    }
  }

  /**
    Whatever the outcomes, attempts `lo` up to `hi` print one progress line
    each, numbered `lo + 1` to `hi` in order.
   */
  lemma {:induction false} TranscriptProgress(outcome: nat -> CreateOutcome, lo: nat, hi: nat, total: nat)
    requires lo <= hi
    ensures ProgressNumbers(Transcript(outcome, lo, hi, total)) == Range(lo + 1, hi + 1)
    decreases hi - lo
  {
    if lo < hi {
      TranscriptProgress(outcome, lo + 1, hi, total);
      StepLines(outcome(lo), lo, total);
      ProgressCons(AttemptLines(outcome(lo), lo, total), Transcript(outcome, lo + 1, hi, total), lo + 1, hi + 1);
    } else {
      assert Transcript(outcome, lo, hi, total) == [];
      assert |Range(lo + 1, hi + 1)| == 0;
    }
  }

  lemma ProgressCons(step: seq<ConsoleLine>, rest: seq<ConsoleLine>, lo: nat, hi: nat)
    requires lo < hi
    requires ProgressNumbers(step) == [lo] && ProgressNumbers(rest) == Range(lo + 1, hi)
    ensures ProgressNumbers(step + rest) == Range(lo, hi)
  {
    ProgressAppend(step, rest);
    RangeCons(lo, hi);
  }

  /** Exactly one error line is written per failed attempt, and none for a page that was created. */
  lemma {:induction false} TranscriptErrors(outcome: nat -> CreateOutcome, lo: nat, hi: nat, total: nat)
    ensures |ErrorMessages(Transcript(outcome, lo, hi, total))| == FailureCount(outcome, lo, hi)
    decreases hi - lo
  {
    if lo < hi {
      var step := AttemptLines(outcome(lo), lo, total);
      var rest := Transcript(outcome, lo + 1, hi, total);
      assert |ErrorMessages(rest)| == FailureCount(outcome, lo + 1, hi) by {
        TranscriptErrors(outcome, lo + 1, hi, total);
      }
      assert |ErrorMessages(step)| == if outcome(lo).Failed? then 1 else 0 by {
        StepLines(outcome(lo), lo, total);
      }
      assert ErrorMessages(Transcript(outcome, lo, hi, total)) == ErrorMessages(step) + ErrorMessages(rest) by {
        ErrorsAppend(step, rest);
      }
    } else {
      assert Transcript(outcome, lo, hi, total) == [];
    }
  }

  /** Progress lines with different numbers have different texts. */
  lemma ProgressTextInjective(i: nat, j: nat, total: nat)
    requires LineText(Progress(i, total)) == LineText(Progress(j, total))
    ensures i == j
  {
    var p, q := "Created page ", " of " + NatToString(total);
    var di, dj := NatToString(i), NatToString(j);
    assert LineText(Progress(i, total)) == p + di + q;
    assert LineText(Progress(j, total)) == p + dj + q;
    Between(p, di, q);
    Between(p, dj, q);
    NatToStringInjective(i, j);
  }

  /** The middle part of a three-part join is found between the lengths of the outer parts. */
  lemma Between(p: string, a: string, q: string)
    ensures |p + a + q| == |p| + |a| + |q|
    ensures (p + a + q)[|p|..|p| + |a|] == a
  {
  }

  /**
    `Requester`: holds the page list and the index of the next page, and
    submits pages one at a time. The ghost fields record what the program does
    to the outside world: the indices attempted, the payloads passed to
    `pages.create`, and the console lines written.
   */
  class Requester {
    const pages: seq<Option<Page>>
    var currentIndex: nat
    ghost var attempted: seq<nat>
    ghost var submitted: seq<Page>
    ghost var console: seq<ConsoleLine>

    /** Every index below `currentIndex` held a page and was attempted exactly once, in order. */
    ghost predicate Valid()
      reads this
    {
      && Present(pages, 0, currentIndex)
      && attempted == Range(0, currentIndex)
      && submitted == Payloads(pages, 0, currentIndex)
    }

    constructor (pages: seq<Option<Page>>)
      ensures Valid()
      ensures this.pages == pages && currentIndex == 0
      ensures attempted == [] && submitted == [] && console == []
    {
      this.pages := pages;
      currentIndex := 0;
      attempted := [];
      submitted := [];
      console := [];
    }

    /** `makeAssignmentFromPage`: one create call; a failure is caught and reported, never passed on. */
    method MakeAssignmentFromPage(page: Page, outcome: CreateOutcome)
      modifies this`submitted, this`console
      ensures submitted == old(submitted) + [page]
      ensures console == old(console) + ErrorReport(outcome)
    {
      submitted := submitted + [page];
      if outcome.Failed? {
        console := console + [Error(outcome.error)];
      }
    }

    /**
      One round of `next()` on a present page: submit it, log its progress
      line and advance `currentIndex`.
     */
    method Submit(outcome: nat -> CreateOutcome)
      requires Valid() && currentIndex < |pages| && pages[currentIndex].Some?
      modifies this`currentIndex, this`attempted, this`submitted, this`console
      ensures Valid() && currentIndex == old(currentIndex) + 1
      ensures attempted == old(attempted) + [old(currentIndex)]
      ensures submitted == old(submitted) + [pages[old(currentIndex)].value]
      ensures console == old(console) + AttemptLines(outcome(old(currentIndex)), old(currentIndex), |pages|)
    {
      var i := currentIndex;
      attempted := attempted + [i];
      MakeAssignmentFromPage(pages[i].value, outcome(i));
      console := console + [Progress(i + 1, |pages|)];
      currentIndex := i + 1;
      assert Valid() by {
        RangeSnoc(0, i);
        PayloadsSnoc(pages, 0, i);
      }
    }

    /**
      `next()`: from `currentIndex` on, submit each page and log its progress
      line, until an index past the end or without a page. The source recurs
      once per page; here that tail recursion is a loop. The outcome of
      attempt `i` is `outcome(i)`; which pages are attempted does not depend on it.
     */
    method Next(outcome: nat -> CreateOutcome)
      requires Valid()
      modifies this`currentIndex, this`attempted, this`submitted, this`console
      ensures Valid() && old(currentIndex) <= currentIndex
      ensures currentIndex == StopIndex(pages, old(currentIndex))
      ensures attempted == old(attempted) + Range(old(currentIndex), currentIndex)
      ensures submitted == old(submitted) + Payloads(pages, old(currentIndex), currentIndex)
      ensures console == old(console) + Transcript(outcome, old(currentIndex), currentIndex, |pages|)
    {
      ghost var start, console0 := currentIndex, console;
      while currentIndex < |pages| && pages[currentIndex].Some?
        invariant Valid() && start <= currentIndex
        invariant StopIndex(pages, currentIndex) == StopIndex(pages, start)
        invariant console == console0 + Transcript(outcome, start, currentIndex, |pages|)
        decreases |pages| - currentIndex
      {
        TranscriptSnoc(outcome, start, currentIndex, |pages|);
        Submit(outcome);
      }
      RangeSplit(0, start, currentIndex);
      PayloadsSplit(pages, 0, start, currentIndex);
    }
  }

  /**
    The tail of `makeAssignmentsInNotion` (src/notion.js lines 86-87): build one
    page per assignment and submit them all. Every page is attempted exactly
    once, in list order, whatever the outcomes, and the console shows one
    progress line per page, numbered 1 to N.
   */
  method MakeAssignmentsInNotion(assignments: seq<Assignment>, databaseId: string,
                                 localDate: Assignment -> LocalDate, outcome: nat -> CreateOutcome)
    returns (requester: Requester)
    ensures requester.currentIndex == |assignments|
    ensures requester.attempted == Range(0, |assignments|)
    ensures requester.submitted == MakePages(assignments, databaseId, localDate)
    ensures requester.console == Transcript(outcome, 0, |assignments|, |assignments|)
  {
    var pages := MakePages(assignments, databaseId, localDate);
    var wrapped := seq(|pages|, i requires 0 <= i < |pages| => Some(pages[i]));
    requester := new Requester(wrapped);
    DenseBatchRunsToEnd(wrapped);
    requester.Next(outcome);
    assert requester.submitted == pages;
  }

  /** The batch `[A, B, <missing>, D]` with B failing: two attempts, one error, two progress lines. */
  method HoleInBatchExample(a: Page, b: Page, d: Page)
  {
    var r := new Requester([Some(a), Some(b), None, Some(d)]);
    var outcome := (i: nat) => if i == 1 then Failed("rejected") else Created;
    FirstGapEndsBatch(r.pages, 2);
    r.Next(outcome);
    assert r.attempted == [0, 1];
    assert r.submitted == [a, b];
    assert r.console == [Progress(1, 4), Error("rejected"), Progress(2, 4)];
  }
}
