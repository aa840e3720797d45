/**
 * The time display beside the seek bar: the display-mode toggle and the
 * derived `elapsedTime` / `totalDuration` labels, recomputed from the
 * player's readings on every render.
 */
module Display {
  import opened Wrappers
  import opened JsNumber
  import opened Decimal
  import opened TimeFormat

  /** `timeDisplayFormat`: "normal" or "remaining". */
  datatype DisplayMode = Normal | Remaining

  /** `handleChangeDisplayFormat`: switches to the other mode. */
  function ToggleMode(m: DisplayMode): (r: DisplayMode)
    ensures r != m
  {
    if m == Normal then Remaining else Normal
  }

  /** Toggling twice restores the mode. */
  lemma ToggleTwice(m: DisplayMode)
    ensures ToggleMode(ToggleMode(m)) == m
  {
  }

  /**
   * `elapsedTime`: the formatted current time in normal mode, and minus
   * the formatted `duration - currentTime` in remaining mode.
   */
  function ElapsedLabel(mode: DisplayMode, currentTime: Reading, duration: Reading): (s: string)
    ensures |s| >= 5
    ensures s[0] == '-' <==> mode == Remaining
    ensures mode == Normal ==> s == Format(ToNumber(currentTime))
    ensures mode == Remaining ==> s[1..] == Format(Sub(ToNumber(duration), ToNumber(currentTime)))
  {
    match mode
    case Normal => Format(ToNumber(currentTime))
    case Remaining => "-" + Format(Sub(ToNumber(duration), ToNumber(currentTime)))
  }

  /** `totalDuration`: the formatted duration. */
  function TotalLabel(duration: Reading): (s: string)
    ensures |s| >= 5 && s[0] != '-'
  {
    Format(ToNumber(duration))
  }

  /** Before the player mounts both readings are the placeholder, which reads as NaN. */
  lemma LabelsBeforeMount()
    ensures ElapsedLabel(Normal, Placeholder, Placeholder) == "00:00"
    ensures ElapsedLabel(Remaining, Placeholder, Placeholder) == "-00:00"
    ensures TotalLabel(Placeholder) == "00:00"
  {
  }

  /** A backend that is not ready reports `null`, which reads as 0 everywhere a label is built. */
  lemma LabelsBeforeReady()
    ensures ElapsedLabel(Normal, NotReady, NotReady) == "00:00"
    ensures ElapsedLabel(Remaining, NotReady, NotReady) == "-00:00"
    ensures TotalLabel(NotReady) == "00:00"
  {
    assert Sub(Finite(0.0), Finite(0.0)) == Finite(0.0);
    FormatWholeSeconds(0);
    LabelMidnight();
  }

  /** 125.4 s truncates to the second 125. */
  lemma SecondOfDuration()
    ensures SecondOfDay(Finite(125.4)) == Some(125)
  {
    assert Trunc(125.4 * 1000.0) == 125400;
  }

  /** 125.4 - 65 = 60.4 truncates to the second 60, printed "01:00". */
  lemma FormatOfRemaining()
    ensures Format(Finite(60.4)) == "01:00"
  {
    assert Trunc(60.4 * 1000.0) == 60400;
    assert SecondOfDay(Finite(60.4)) == Some(60);
    FormatOfDay(Finite(60.4), 60);
    assert 60 / 3600 == 0 && (60 % 3600) / 60 == 1 && 60 % 60 == 0;
    assert Pad2(1) == "01" && Pad2(0) == "00";
    assert Label(0, 1, 0) == "01:00";
  }

  /** A 125.4 s clip at 65 s in normal mode shows "01:05". */
  lemma ElapsedScenario()
    ensures ElapsedLabel(Normal, Reported(Finite(65.0)), Reported(Finite(125.4))) == "01:05"
  {
    FormatExampleMinutes();
  }

  /** Its total label is "02:05": the fractional 0.4 s is dropped. */
  lemma TotalScenario()
    ensures TotalLabel(Reported(Finite(125.4))) == "02:05"
  {
    SecondOfDuration();
    FormatOfDay(Finite(125.4), 125);
    assert 125 / 3600 == 0 && (125 % 3600) / 60 == 2 && 125 % 60 == 5;
    assert Pad2(2) == "02" && Pad2(5) == "05";
    assert Label(0, 2, 5) == "02:05";
  }

  /** In remaining mode the same clip shows "-01:00". */
  lemma RemainingScenario()
    ensures ElapsedLabel(Remaining, Reported(Finite(65.0)), Reported(Finite(125.4))) == "-01:00"
  {
    assert Sub(Finite(125.4), Finite(65.0)) == Finite(60.4);
    FormatOfRemaining();
  }
}
