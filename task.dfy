/**
 * The task record and the `H:MM:SS` duration formatter (ClipTimer/Task.swift),
 * with the live elapsed time a task shows while it is running.
 */
module TaskModel {
  import opened Wrappers
  import opened Text

  /**
   * A task: a stable identity, a display name, the seconds accumulated while
   * not running, and whether it has been finished. Ids stand for the UUIDs the
   * app draws; the store hands them out.
   */
  datatype Task = Task(id: nat, name: string, elapsed: nat, isCompleted: bool)

  /** `hms`: hours unpadded, then minutes and seconds as two digits each. */
  function Hms(t: nat): (r: string)
    ensures 7 <= |r| && r[|r| - 6] == ':' && r[|r| - 3] == ':' && IsDigit(r[|r| - 1])
  {
    Show(t / 3600) + ":" + Pad2((t % 3600) / 60) + ":" + Pad2(t % 60)
  }

  /**
   * `hms(showSecondsColon:)`: the menu-bar variant, whose minutes-seconds
   * separator becomes a space on the blink phase.
   */
  function HmsBlink(t: nat, showSecondsColon: bool): (r: string)
    ensures showSecondsColon ==> r == Hms(t)
    ensures |r| == |Hms(t)| && r[|r| - 3] == (if showSecondsColon then ':' else ' ')
  {
    Show(t / 3600) + ":" + Pad2((t % 3600) / 60) + (if showSecondsColon then ":" else " ") + Pad2(t % 60)
  }

  /** `hms` on a `TimeInterval`: `Int(self)` truncates toward zero, which is the floor for a non-negative value. */
  function HmsOfInterval(x: real): string
    requires x >= 0.0
  {
    Hms(x.Floor)
  }

  /** Every interval within the second after `t` shows as `t`: the fraction is dropped. */
  lemma HmsOfIntervalTruncates(x: real, t: nat)
    requires t as real <= x < t as real + 1.0
    ensures HmsOfInterval(x) == Hms(t)
  {
  }

  /**
   * The three fields of `Hms(t)` read back: the string is hours, colon, two
   * minute digits, colon, two second digits; minutes and seconds are below 60,
   * the hours carry no leading zero, and together they give back `t`.
   */
  lemma HmsFields(t: nat)
    ensures var r := Hms(t); var n := |r|;
      n >= 7 && r[n - 6] == ':' && r[n - 3] == ':'
      && AllDigits(r[..n - 6]) && AllDigits(r[n - 5..n - 3]) && AllDigits(r[n - 2..])
      && (n - 6 > 1 ==> r[0] != '0')
      && DigitsValue(r[n - 5..n - 3]) < 60 && DigitsValue(r[n - 2..]) < 60
      && DigitsValue(r[..n - 6]) * 3600 + DigitsValue(r[n - 5..n - 3]) * 60 + DigitsValue(r[n - 2..]) == t
  {
    ThreeFields(Show(t / 3600), Pad2((t % 3600) / 60), Pad2(t % 60));
    SecondsByUnits(t);
  }

  /** Where the fields sit in a string of hours, colon, two characters, colon, two characters. */
  lemma ThreeFields(h: string, m: string, s: string)
    requires |m| == 2 && |s| == 2
    ensures var r := h + ":" + m + ":" + s; var n := |r|;
      && n == |h| + 6 && r[n - 6] == ':' && r[n - 3] == ':'
      && r[..n - 6] == h && r[n - 5..n - 3] == m && r[n - 2..] == s
  {
    var r := h + ":" + m + ":" + s;
    var n := |r|;
    assert r[..n - 6] == h;
    assert r[n - 5..n - 3] == m;
    assert r[n - 2..] == s;
  }

  /** Hours, minutes and seconds as `hms` computes them add back up to the seconds. */
  lemma SecondsByUnits(t: nat)
    ensures (t / 3600) * 3600 + ((t % 3600) / 60) * 60 + t % 60 == t
  {
  }

  /** Hours are not capped: below 100 hours they take one or two digits. */
  lemma HmsHourWidth(t: nat)
    ensures t < 100 * 3600 ==> |Hms(t)| <= 8
    ensures t >= 100 * 3600 ==> |Hms(t)| >= 9
  {
  }

  /** The blinking variant differs from `hms` only in the minutes-seconds separator. */
  lemma HmsBlinkSeparator(t: nat)
    ensures HmsBlink(t, true) == Hms(t)
    ensures var r := Hms(t); HmsBlink(t, false) == r[|r| - 3 := ' ']
  {
    var h, m, s := Show(t / 3600), Pad2((t % 3600) / 60), Pad2(t % 60);
    var r := Hms(t);
    assert r == h + ":" + m + ":" + s;
    assert HmsBlink(t, false) == h + ":" + m + " " + s;
  }

  /** No time at all shows every field. */
  lemma HmsZeroExample()
    ensures Hms(0) == "0:00:00"
  {
  }

  /** Seconds stay below a minute. */
  lemma HmsSecondsExample()
    ensures Hms(59) == "0:00:59"
  {
  }

  /** Sixty seconds are one minute. */
  lemma HmsMinuteExample()
    ensures Hms(60) == "0:01:00"
  {
  }

  /** Hours are not padded. */
  lemma HmsHourExample()
    ensures Hms(3661) == "1:01:01"
  {
  }

  /** Each field is taken from its own unit. */
  lemma HmsFieldOrderExample()
    ensures Hms(7323) == "2:02:03"
  {
  }

  /** Hours are not capped at a day. */
  lemma HmsDayExample()
    ensures Hms(86400) == "24:00:00"
  {
    assert Show(24) == Show(2) + [DigitChar(4)];
  }

  /** A fractional interval is truncated, not rounded. */
  lemma HmsIntervalExample()
    ensures HmsOfInterval(59.9) == "0:00:59"
  {
  }

  /** The blinking menu-bar variant. */
  lemma HmsBlinkExample()
    ensures HmsBlink(3661, true) == "1:01:01" && HmsBlink(3661, false) == "1:01 01"
  {
  }

  /**
   * `Task.currentElapsed(activeTaskID:startTime:)`: the stored seconds, plus
   * the running interval when this task is the active one and a start time is
   * known. The clock is assumed not to run backwards past the start time.
   */
  function CurrentElapsed(t: Task, activeID: Option<nat>, startTime: Option<int>, now: int): (r: nat)
    requires startTime.Some? ==> startTime.value <= now
    ensures r >= t.elapsed
    ensures activeID != Some(t.id) || startTime.None? ==> r == t.elapsed
    ensures activeID == Some(t.id) && startTime.Some? ==> r - t.elapsed == now - startTime.value
  {
    if activeID == Some(t.id) && startTime.Some? then t.elapsed + (now - startTime.value) else t.elapsed
  }
}
