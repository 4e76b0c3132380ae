/**
 * The text TaskStore writes out: one line per task (`taskLines`), the
 * `summaryText` shown to the user and the text `copySummaryToClipboard`
 * puts on the pasteboard. The localized labels are their English strings.
 */
module Summary {
  import opened Wrappers
  import opened Text
  import opened TaskModel
  import opened LineParser
  import opened Timing

  const NoTasksYet: string := "No tasks yet"
  const WorkingTimeLabel: string := "Working time"
  const TotalLabel: string := "Total"

  /** `taskLines()`: the item symbol, the name (wrapped in `~~` when completed), ": " and the shown time. */
  function TaskLines(symbol: string, s: Timing, now: int): (r: seq<string>)
    requires StartedBy(s, now)
    ensures |r| == |s.tasks|
  {
    seq(|s.tasks|, i requires 0 <= i < |s.tasks| =>
      FormatTaskLine(symbol, s.tasks[i].name, s.tasks[i].isCompleted, Shown(s, i, now)))
  }

  /** `summaryText` */
  function SummaryText(symbol: string, s: Timing, now: int): (r: string)
    requires StartedBy(s, now)
    ensures s.tasks == [] <==> r == NoTasksYet
  {
    if s.tasks == [] then NoTasksYet
    else JoinLines(TaskLines(symbol, s, now)) + "\n\n" + WorkingTimeLabel + ": " + Hms(Total(s, now))
  }

  /** The text `copySummaryToClipboard()` builds. */
  function ClipboardSummary(symbol: string, s: Timing, now: int): (r: string)
    requires StartedBy(s, now)
    ensures s.tasks == [] <==> r == NoTasksYet
  {
    var taskSummary := JoinLines(TaskLines(symbol, s, now));
    TaskSummaryNonEmpty(symbol, s, now);
    if taskSummary == [] then NoTasksYet
    else taskSummary + "\n\n" + TotalLabel + ": " + Hms(Total(s, now))
  }

  /** Symbols and names that keep every summary line on one line of its own. */
  predicate OneLineNames(symbol: string, s: Timing) {
    && '\n' !in symbol
    && forall i :: 0 <= i < |s.tasks| ==> '\n' !in s.tasks[i].name
  }

  /** `hms` holds no newline and ends in a digit. */
  lemma HmsOneLine(t: nat)
    ensures '\n' !in Hms(t) && IsDigit(Hms(t)[|Hms(t)| - 1])
  {
    var h, m, sec := Show(t / 3600), Pad2((t % 3600) / 60), Pad2(t % 60);
    assert Hms(t) == h + ":" + m + ":" + sec;
    assert '\n' !in h && '\n' !in m && '\n' !in sec;
    assert Hms(t)[|Hms(t)| - 1] == sec[1];
  }

  /** Every task line is non-empty, holds no newline and ends in a digit of its time. */
  lemma TaskLinesAreLines(symbol: string, s: Timing, now: int)
    requires StartedBy(s, now) && OneLineNames(symbol, s)
    ensures forall i :: 0 <= i < |s.tasks| ==> IsLine(TaskLines(symbol, s, now)[i])
  {
    forall i | 0 <= i < |s.tasks|
      ensures IsLine(TaskLines(symbol, s, now)[i])
    {
      var t := s.tasks[i];
      var marked := MarkedName(t.name, t.isCompleted);
      HmsOneLine(Shown(s, i, now));
      assert '\n' !in marked by {
        if t.isCompleted { assert marked == "~~" + t.name + "~~"; }
      }
      var line := TaskLines(symbol, s, now)[i];
      assert line == symbol + marked + ": " + Hms(Shown(s, i, now));
      assert line[|line| - 1] == Hms(Shown(s, i, now))[|Hms(Shown(s, i, now))| - 1];
    }
  }

  /**
   * Split back into lines, a summary with tasks is the task lines in list
   * order followed by the working-time line; the blank line between them
   * disappears.
   */
  lemma SummaryLines(symbol: string, s: Timing, now: int)
    requires StartedBy(s, now) && OneLineNames(symbol, s) && s.tasks != []
    ensures SplitLines(SummaryText(symbol, s, now))
         == TaskLines(symbol, s, now) + [WorkingTimeLabel + ": " + Hms(Total(s, now))]
  {
    TaskLinesAreLines(symbol, s, now);
    HmsOneLine(Total(s, now));
    LinesThenLabel(TaskLines(symbol, s, now), WorkingTimeLabel, Hms(Total(s, now)));
  }

  /** Lines, a blank line and one labelled line split back into the lines and the labelled line. */
  lemma LinesThenLabel(lines: seq<string>, caption: string, value: string)
    requires lines != [] && forall i :: 0 <= i < |lines| ==> IsLine(lines[i])
    requires '\n' !in caption && '\n' !in value
    ensures SplitLines(JoinLines(lines) + "\n\n" + caption + ": " + value) == lines + [caption + ": " + value]
  {
    var last := caption + ": " + value;
    BlankLineBefore(JoinLines(lines), caption, value);
    SplitAfterJoin(lines, "\n" + last);
    SplitAfterNewline(last);
    SplitOneLine(last);
  }

  /** Re-association of a text, a blank line and a labelled line. */
  lemma BlankLineBefore(body: string, caption: string, value: string)
    ensures body + "\n\n" + caption + ": " + value == body + "\n" + ("\n" + (caption + ": " + value))
  {
  }

  /**
   * The pasteboard summary says there are no tasks exactly when the list is
   * empty; otherwise it is the task lines and the `Total` line. Every task
   * line holds at least ": " and a time, so the joined lines are never empty.
   */
  lemma ClipboardSummarySpec(symbol: string, s: Timing, now: int)
    requires StartedBy(s, now)
    ensures s.tasks == [] ==> ClipboardSummary(symbol, s, now) == NoTasksYet
    ensures s.tasks != [] ==>
      ClipboardSummary(symbol, s, now) == JoinLines(TaskLines(symbol, s, now)) + "\n\n" + TotalLabel + ": " + Hms(Total(s, now))
  {
    TaskSummaryNonEmpty(symbol, s, now);
  }

  /** The joined task lines are empty only for an empty list. */
  lemma TaskSummaryNonEmpty(symbol: string, s: Timing, now: int)
    requires StartedBy(s, now)
    ensures s.tasks != [] ==> JoinLines(TaskLines(symbol, s, now)) != []
  {
    if s.tasks != [] {
      var lines := TaskLines(symbol, s, now);
      var t := s.tasks[0];
      assert lines[0] == symbol + MarkedName(t.name, t.isCompleted) + ": " + Hms(Shown(s, 0, now));
      JoinLinesNonEmpty(lines);
    }
  }

  lemma {:induction false} JoinLinesNonEmpty(lines: seq<string>)
    requires lines != [] && lines[0] != []
    ensures JoinLines(lines) != []
  {
    if |lines| > 1 {
      JoinUnfold(lines);
    }
  }

  /**
   * Every task line reads back, through `parseTaskLine`, as a task with the
   * same name, completion flag and shown time, when the names are plain, the
   * list's symbol is one the parser knows (or none), and no shown time
   * reaches 100 hours.
   */
  lemma TaskLinesParseBack(symbol: string, s: Timing, now: int, id: nat)
    requires StartedBy(s, now)
    requires symbol == "" || symbol in SupportedSymbols
    requires forall i :: 0 <= i < |s.tasks| ==> IsPlainName(s.tasks[i].name) && Shown(s, i, now) < 100 * 3600
    ensures forall i :: 0 <= i < |s.tasks| ==>
      ParseTaskLine(TaskLines(symbol, s, now)[i], id)
        == Some(Task(id, s.tasks[i].name, Shown(s, i, now), s.tasks[i].isCompleted))
  {
    forall i | 0 <= i < |s.tasks|
      ensures ParseTaskLine(TaskLines(symbol, s, now)[i], id)
        == Some(Task(id, s.tasks[i].name, Shown(s, i, now), s.tasks[i].isCompleted))
    {
      var t := s.tasks[i];
      FormatParseRoundTrip(symbol, t.name, t.isCompleted, Shown(s, i, now), id);
    }
  }
}
