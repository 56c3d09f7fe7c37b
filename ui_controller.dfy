/**
 * The Raspberry Pi UI controller: one pass of the main loop after a
 * device read, as a transition of the screen state machine
 * (ACTIVE / SCREENSAVER / SETTING), and the controller object that
 * performs it in place.
 */
module UiController {
  import opened Wrappers
  import opened PyText
  import opened TimeCodec

  datatype UiState = Active | Screensaver | Setting

  /** Seconds without rotary or key input after which ACTIVE gives way to the screensaver. */
  const IdleToScreensaver: real := 10.0

  /** The loop variables of `main` that survive from one pass to the next. */
  datatype Ui = Ui(
    state: UiState,
    t: DateTime,          // the record shown and edited
    lastInput: real,      // `last_input_ts`
    clockDelta: int,      // `clock_delta_pos`, the analog clock's horizontal shift
    ssTick: int,          // `ss_tick`, the screensaver animation counter
    cursor: int,          // `setting_cursor_idx`: 0..5 the fields, 6 OK, 7 CANCEL
    mode: int)            // `setting_mode`: 0 moves the cursor, 1 edits the field under it

  /** One pass's result: the new variables and the line handed to `write_time`, if any. */
  datatype Outcome = Outcome(ui: Ui, write: Option<string>)

  /** What the loop keeps true between passes. */
  predicate Inv(ui: Ui) {
    0 <= ui.cursor < 8 && (ui.mode == 0 || ui.mode == 1)
    && (ui.mode == 1 ==> ui.state == Setting && ui.cursor < 6)
    && -32 <= ui.clockDelta <= 32 && ui.ssTick >= 0
  }

  /** The variables before the first pass, the clock read at `start`. */
  function InitialUi(start: real): (ui: Ui)
    ensures Inv(ui) && ValidTime(ui.t) && ui.state == Active && ui.lastInput == start
  {
    Ui(Active, InitialTime, start, 0, 0, 0, 0)
  }

  /** The line written to the device before the loop starts. */
  lemma InitialLine()
    ensures TimeToStr(InitialTime) == "251229102030\n"
  {
    Pad2TwoDigits(25);
    Pad2TwoDigits(12);
    Pad2TwoDigits(29);
    Pad2TwoDigits(10);
    Pad2TwoDigits(20);
    Pad2TwoDigits(30);
  }

  // ---------------------------------------------------------------- one pass

  /** Any rotary or key activity restarts the idle timer. */
  function Touch(ui: Ui, ev: Input, now: real): Ui {
    if ev.rotary > 0 || ev.key > 0 then ui.(lastInput := now) else ui
  }

  /** Outside SETTING the shown clock follows the device's clock. */
  function Refresh(ui: Ui, ev: Input): Ui {
    if ui.state != Setting then ui.(t := WithClock(ui.t, ev)) else ui
  }

  function ActiveStep(ui: Ui, ev: Input, now: real): Ui {
    if now - ui.lastInput >= IdleToScreensaver then ui.(state := Screensaver, ssTick := 0)
    else if ev.key > 0 then ui.(state := Setting, cursor := 7, mode := 0)
    else if ev.rotary == 1 then ui.(clockDelta := Clamp(ui.clockDelta + 1, -32, 32))
    else if ev.rotary == 2 then ui.(clockDelta := Clamp(ui.clockDelta - 1, -32, 32))
    else ui
  }

  function ScreensaverStep(ui: Ui, ev: Input): Ui {
    var ticked := ui.(ssTick := ui.ssTick + 1);
    if ev.rotary > 0 then ticked.(state := Active) else ticked
  }

  /**
   * One rotary step (`delta` is +1 or -1) on the field under the cursor:
   * the year wraps modulo 100, a month change re-clamps the date, the
   * other fields saturate.
   */
  function Edit(t: DateTime, cursor: int, delta: int): DateTime {
    if cursor == 0 then t.(year := (t.year + delta) % 100)
    else if cursor == 1 then
      var m := Clamp(t.month + delta, 1, 12);
      t.(month := m, date := Clamp(t.date, 1, DaysInMonth(t.year, m)))
    else if cursor == 2 then t.(date := Clamp(t.date + delta, 1, DaysInMonth(t.year, t.month)))
    else if cursor == 3 then t.(hours := Clamp(t.hours + delta, 0, 23))
    else if cursor == 4 then t.(minutes := Clamp(t.minutes + delta, 0, 59))
    else if cursor == 5 then t.(seconds := Clamp(t.seconds + delta, 0, 59))
    else t
  }

  function SettingStep(ui: Ui, ev: Input): Outcome {
    if ui.mode == 0 then
      if ev.rotary == 1 then Outcome(ui.(cursor := (ui.cursor + 1) % 8), None)
      else if ev.rotary == 2 then Outcome(ui.(cursor := (ui.cursor - 1) % 8), None)
      else if ev.key == 1 then
        if ui.cursor < 6 then Outcome(ui.(mode := 1), None)
        else if ui.cursor == 6 then Outcome(ui.(state := Active), Some(TimeToStr(ui.t)))
        else if ui.cursor == 7 then Outcome(ui.(t := WithClock(ui.t, ev), state := Active), None)
        else Outcome(ui, None)
      else Outcome(ui, None)
    else if ui.mode == 1 then
      if ev.rotary == 1 then Outcome(ui.(t := Edit(ui.t, ui.cursor, 1)), None)
      else if ev.rotary == 2 then Outcome(ui.(t := Edit(ui.t, ui.cursor, -1)), None)
      else if ev.key == 1 then Outcome(ui.(mode := 0), None)
      else Outcome(ui, None)
    else Outcome(ui, None)
  }

  /** The loop body for one parsed event read at time `now`. */
  function Transition(ui: Ui, ev: Input, now: real): (o: Outcome)
    ensures o.write.Some? ==> o.write.value == TimeToStr(ui.t)
  {
    var u := Refresh(Touch(ui, ev, now), ev);
    match u.state
    case Active => Outcome(ActiveStep(u, ev, now), None)
    case Screensaver => Outcome(ScreensaverStep(u, ev), None)
    case Setting => SettingStep(u, ev)
  }

  // ---------------------------------------------------------------- properties of a pass

  /** The idle timer restarts exactly on rotary or key activity. */
  lemma TransitionTouch(ui: Ui, ev: Input, now: real)
    ensures Transition(ui, ev, now).ui.lastInput
         == if ev.rotary > 0 || ev.key > 0 then now else ui.lastInput
  {
  }

  /** Outside SETTING the six clock fields become the event's; the rest of the record stays. */
  lemma TransitionRefreshesClock(ui: Ui, ev: Input, now: real)
    requires ui.state != Setting
    ensures Transition(ui, ev, now).ui.t == WithClock(ui.t, ev)
  {
  }

  /** In SETTING the record changes only by an edit step or by CANCEL. */
  lemma TransitionSettingKeepsRecord(ui: Ui, ev: Input, now: real)
    requires ui.state == Setting
    requires !(ui.mode == 1 && (ev.rotary == 1 || ev.rotary == 2))
    requires !(ui.mode == 0 && ev.rotary != 1 && ev.rotary != 2 && ev.key == 1 && ui.cursor == 7)
    ensures Transition(ui, ev, now).ui.t == ui.t
  {
  }

  /**
   * ACTIVE falls to the screensaver, with its counter at 0, exactly on an
   * event without rotary or key activity that arrives 10 s or more after
   * the last activity.
   */
  lemma ActiveIdleIff(ui: Ui, ev: Input, now: real)
    requires ui.state == Active
    ensures Transition(ui, ev, now).ui.state == Screensaver
        <==> !(ev.rotary > 0 || ev.key > 0) && now - ui.lastInput >= IdleToScreensaver
    ensures Transition(ui, ev, now).ui.state == Screensaver ==> Transition(ui, ev, now).ui.ssTick == 0
  {
  }

  /** A key press in ACTIVE always opens SETTING, on CANCEL, in cursor mode. */
  lemma ActiveKeyOpensSetting(ui: Ui, ev: Input, now: real)
    requires ui.state == Active && ev.key > 0
    ensures var u := Transition(ui, ev, now).ui;
      u.state == Setting && u.cursor == 7 && u.mode == 0 && u.clockDelta == ui.clockDelta
  {
  }

  /** In ACTIVE, rotary 1 shifts the clock right and rotary 2 left, by one, within [-32, 32]. */
  lemma ActiveRotaryShifts(ui: Ui, ev: Input, now: real)
    requires ui.state == Active && ev.key <= 0 && (ev.rotary == 1 || ev.rotary == 2)
    requires -32 <= ui.clockDelta <= 32
    ensures var u := Transition(ui, ev, now).ui;
      u.state == Active && -32 <= u.clockDelta <= 32
      && (ev.rotary == 1 && ui.clockDelta < 32 ==> u.clockDelta == ui.clockDelta + 1)
      && (ev.rotary == 1 && ui.clockDelta == 32 ==> u.clockDelta == 32)
      && (ev.rotary == 2 && ui.clockDelta > -32 ==> u.clockDelta == ui.clockDelta - 1)
      && (ev.rotary == 2 && ui.clockDelta == -32 ==> u.clockDelta == -32)
  {
  }

  /** Every event in the screensaver advances its counter by one; only rotary activity wakes it. */
  lemma ScreensaverTicks(ui: Ui, ev: Input, now: real)
    requires ui.state == Screensaver
    ensures var u := Transition(ui, ev, now).ui;
      u.ssTick == ui.ssTick + 1
      && (u.state == Active <==> ev.rotary > 0)
      && (u.state == Screensaver <==> ev.rotary <= 0)
  {
  }

  /** In cursor mode the rotary moves the cursor around the eight positions. */
  lemma SettingCursorMoves(ui: Ui, ev: Input, now: real)
    requires ui.state == Setting && ui.mode == 0 && 0 <= ui.cursor < 8
    requires ev.rotary == 1 || ev.rotary == 2
    ensures var u := Transition(ui, ev, now).ui;
      u.state == Setting && u.mode == 0 && 0 <= u.cursor < 8 && u.t == ui.t
      && (ev.rotary == 1 ==> u.cursor == if ui.cursor == 7 then 0 else ui.cursor + 1)
      && (ev.rotary == 2 ==> u.cursor == if ui.cursor == 0 then 7 else ui.cursor - 1)
  {
  }

  /** A step right and then a step left put the cursor back. */
  lemma SettingCursorRoundTrip(ui: Ui, right: Input, left: Input, now1: real, now2: real)
    requires ui.state == Setting && ui.mode == 0 && 0 <= ui.cursor < 8
    requires right.rotary == 1 && left.rotary == 2
    ensures var u := Transition(Transition(ui, right, now1).ui, left, now2).ui;
      u == ui.(lastInput := now2)
  {
  }

  /** The one place a line is written: OK pressed in cursor mode. */
  lemma TransitionWritesIff(ui: Ui, ev: Input, now: real)
    ensures Transition(ui, ev, now).write.Some?
        <==> ui.state == Setting && ui.mode == 0 && ev.rotary != 1 && ev.rotary != 2
             && ev.key == 1 && ui.cursor == 6
  {
  }

  /** OK writes the edited record and returns to ACTIVE. */
  lemma SettingOk(ui: Ui, ev: Input, now: real)
    requires ui.state == Setting && ui.mode == 0 && ev.rotary != 1 && ev.rotary != 2
    requires ev.key == 1 && ui.cursor == 6
    ensures Transition(ui, ev, now).write == Some(TimeToStr(ui.t))
    ensures Transition(ui, ev, now).ui.state == Active && Transition(ui, ev, now).ui.t == ui.t
  {
  }

  /** CANCEL throws the edits away: the clock fields come from the event again. */
  lemma SettingCancel(ui: Ui, ev: Input, now: real)
    requires ui.state == Setting && ui.mode == 0 && ev.rotary != 1 && ev.rotary != 2
    requires ev.key == 1 && ui.cursor == 7
    ensures Transition(ui, ev, now).ui.state == Active
    ensures Transition(ui, ev, now).ui.t == WithClock(ui.t, ev)
    ensures Transition(ui, ev, now).write == None
  {
  }

  /** The key on a field enters edit mode, and the key in edit mode leaves it; the cursor stays. */
  lemma SettingModeToggles(ui: Ui, ev: Input, now: real)
    requires ui.state == Setting && ev.rotary != 1 && ev.rotary != 2 && ev.key == 1
    requires (ui.mode == 0 && ui.cursor < 6) || ui.mode == 1
    ensures var u := Transition(ui, ev, now).ui;
      u.state == Setting && u.cursor == ui.cursor && u.t == ui.t && u.mode == 1 - ui.mode
  {
  }

  /** In edit mode the rotary edits the field under the cursor and nothing else moves. */
  lemma SettingEdits(ui: Ui, ev: Input, now: real)
    requires ui.state == Setting && ui.mode == 1 && (ev.rotary == 1 || ev.rotary == 2)
    ensures var u := Transition(ui, ev, now).ui;
      u == ui.(lastInput := now, t := Edit(ui.t, ui.cursor, if ev.rotary == 1 then 1 else -1))
  {
  }

  /** Every pass keeps the loop's invariant. */
  lemma TransitionKeepsInv(ui: Ui, ev: Input, now: real)
    requires Inv(ui)
    ensures Inv(Transition(ui, ev, now).ui)
  {
  }

  // ---------------------------------------------------------------- the edit step

  /** The fields other than the one under the cursor are untouched (the date moves with the month). */
  predicate OnlyField(a: DateTime, b: DateTime, cursor: int) {
    a.dayofweek == b.dayofweek && a.ampm == b.ampm && a.hourmode == b.hourmode
    && (cursor != 0 ==> a.year == b.year)
    && (cursor != 1 ==> a.month == b.month)
    && (cursor != 1 && cursor != 2 ==> a.date == b.date)
    && (cursor != 3 ==> a.hours == b.hours)
    && (cursor != 4 ==> a.minutes == b.minutes)
    && (cursor != 5 ==> a.seconds == b.seconds)
  }

  lemma EditOnlyField(t: DateTime, cursor: int, delta: int)
    ensures OnlyField(t, Edit(t, cursor, delta), cursor)
  {
  }

  /** The year wraps: 99 + 1 is 0, 0 - 1 is 99, and the date is not re-clamped. */
  lemma EditYearWraps(t: DateTime, delta: int)
    requires delta == 1 || delta == -1
    ensures var r := Edit(t, 0, delta);
      0 <= r.year < 100 && r.date == t.date && r.month == t.month
      && (t.year == 99 && delta == 1 ==> r.year == 0)
      && (t.year == 0 && delta == -1 ==> r.year == 99)
      && (0 <= t.year + delta < 100 ==> r.year == t.year + delta)
  {
  }

  /** Up then down gives back any two-digit year. */
  lemma EditYearUndo(t: DateTime)
    requires 0 <= t.year < 100
    ensures Edit(Edit(t, 0, 1), 0, -1) == t
    ensures Edit(Edit(t, 0, -1), 0, 1) == t
  {
  }

  /** A month step lands in 1..12 and pulls the date into the new month. */
  lemma EditMonthReclamps(t: DateTime, delta: int)
    requires delta == 1 || delta == -1
    ensures var r := Edit(t, 1, delta);
      1 <= r.month <= 12 && 1 <= r.date <= DaysInMonth(t.year, r.month)
      && (1 <= t.month + delta <= 12 ==> r.month == t.month + delta)
      && (1 <= t.date <= DaysInMonth(t.year, r.month) ==> r.date == t.date)
  {
  }

  /** The lower and upper bound of the field under cursors 2..5. */
  function FieldRange(t: DateTime, cursor: int): (r: (int, int))
    requires 2 <= cursor <= 5
    ensures r.0 <= r.1
  {
    if cursor == 2 then (1, DaysInMonth(t.year, t.month))
    else if cursor == 3 then (0, 23)
    else (0, 59)
  }

  function Field(t: DateTime, cursor: int): int
    requires 2 <= cursor <= 5
  {
    if cursor == 2 then t.date else if cursor == 3 then t.hours
    else if cursor == 4 then t.minutes else t.seconds
  }

  /**
   * Date, hours, minutes and seconds saturate: the step lands in the range,
   * moves by one inside it, and stays put at the bound it pushes against.
   */
  lemma EditSaturates(t: DateTime, cursor: int, delta: int)
    requires 2 <= cursor <= 5 && (delta == 1 || delta == -1)
    ensures var r := Edit(t, cursor, delta); var (lo, hi) := FieldRange(t, cursor);
      lo <= Field(r, cursor) <= hi
      && (lo <= Field(t, cursor) + delta <= hi ==> Field(r, cursor) == Field(t, cursor) + delta)
      && (Field(t, cursor) == hi && delta == 1 ==> Field(r, cursor) == hi)
      && (Field(t, cursor) == lo && delta == -1 ==> Field(r, cursor) == lo)
  {
    var r := Edit(t, cursor, delta);
    assert FieldRange(r, cursor) == FieldRange(t, cursor);
  }

  /** Editing a field other than the year keeps a valid date valid. */
  lemma EditKeepsValid(t: DateTime, cursor: int, delta: int)
    requires ValidTime(t) && cursor != 0 && (delta == 1 || delta == -1)
    ensures ValidTime(Edit(t, cursor, delta))
  {
  }

  /** The year edit keeps a valid date valid unless it is a 29 February. */
  lemma EditYearKeepsValid(t: DateTime, delta: int)
    requires ValidTime(t) && !(t.month == 2 && t.date == 29) && (delta == 1 || delta == -1)
    ensures ValidTime(Edit(t, 0, delta))
  {
  }

  /** Because the year edit does not re-clamp, 29 February 2024 becomes 29 February 2025. */
  lemma YearEditLeavesFeb29()
    ensures var t := InitialTime.(year := 24, month := 2, date := 29);
      ValidTime(t) && Edit(t, 0, 1).date == 29 && Edit(t, 0, 1).year == 25
      && !ValidTime(Edit(t, 0, 1))
  {
  }

  // ---------------------------------------------------------------- the read buffer

  datatype FeedResult =
    | Ignored    // the stripped buffer is empty or not 14 characters: `continue`
    | Stepped    // one pass of the state machine ran
    | Halted     // `int()` raised `ValueError`, which leaves `main`

  /** How `main` classifies one read buffer: it strips the whole buffer and decodes it. */
  function Classify(text: string): (r: FeedResult)
    ensures r == Ignored <==> |Strip(text)| != 14
  {
    match Decode(Strip(text))
    case NoEvent => Ignored
    case Event(_) => Stepped
    case Malformed => Halted
  }

  /**
   * Two complete device lines in one read are one 29-character text to
   * `main`, so they are dropped, although `read_time_ipnut` would have
   * picked the second.
   */
  lemma TwoLinesDropped(l1: string, l2: string)
    requires |l1| == 14 && |l2| == 14 && AllDigits(l1) && AllDigits(l2)
    ensures Classify(l1 + "\n" + l2 + "\n") == Ignored
    ensures ReadTimeInput(l1 + "\n" + l2 + "\n") == l2
  {
    var s := l1 + "\n" + l2 + "\n";
    assert IsDigit(s[0]) && IsDigit(s[28]) && IsSpace(s[29]);
    assert SkipSpace(s, 0) == 0;
    assert BackSpace(s, 0, 30) == BackSpace(s, 0, 29) == 29;
    assert |Strip(s)| == 29;
    assert forall i :: 0 <= i < |l2| ==> !IsLineBreak(l2[i]) by {
      forall i | 0 <= i < |l2| ensures !IsLineBreak(l2[i]) { assert IsDigit(l2[i]); }
    }
    assert forall i :: 0 <= i < |l1| ==> !IsLineBreak(l1[i]) by {
      forall i | 0 <= i < |l1| ensures !IsLineBreak(l1[i]) { assert IsDigit(l1[i]); }
    }
    assert s == (l1 + "\n" + l2) + ['\n'] + [];
    assert l1 + "\n" + l2 == l1 + ['\n'] + l2;
    ReadTimeInputLastWins(l1 + "\n" + l2, '\n', []);
    ReadTimeInputLastWins(l1, '\n', l2);
    ReadTimeInputOneLine(l2);
    ReadTimeInputOneLine(l1);
    ReadTimeInputEmptyIff([]);
    StripUnchangedDigits(l2);
  }

  lemma StripUnchangedDigits(s: string)
    requires |s| > 0 && AllDigits(s)
    ensures Strip(s) == s
  {
    assert IsDigit(s[0]) && IsDigit(s[|s| - 1]);
    StripUnchanged(s);
  }

  // ---------------------------------------------------------------- the controller object

  /** `main`'s loop variables, updated in place by each pass. */
  class Controller {
    var state: UiState
    var t: DateTime
    var lastInput: real
    var clockDelta: int
    var ssTick: int
    var cursor: int
    var mode: int
    /** The lines handed to `write_time`, oldest first. */
    var written: seq<string>
    /** Set once `ValueError` has left `main`: the loop runs no further pass. */
    var halted: bool

    function Current(): Ui
      reads this
    {
      Ui(state, t, lastInput, clockDelta, ssTick, cursor, mode)
    }

    predicate Valid()
      reads this
    {
      Inv(Current())
    }

    /** The set-up before the loop: the initial record is written once. */
    constructor (start: real)
      ensures Current() == InitialUi(start)
      ensures written == [TimeToStr(InitialTime)] && !halted
      ensures Valid()
    {
      state := Active;
      t := InitialTime;
      lastInput := start;
      clockDelta := 0;
      ssTick := 0;
      cursor := 0;
      mode := 0;
      written := [TimeToStr(InitialTime)];
      halted := false;
    }

    /** One pass of the loop for a parsed event read at `now`. */
    method Step(ev: Input, now: real)
      modifies this
      ensures halted == old(halted)
      ensures Current() == Transition(old(Current()), ev, now).ui
      ensures var w := Transition(old(Current()), ev, now).write;
        written == old(written) + (if w.Some? then [w.value] else [])
      ensures old(Valid()) ==> Valid()
    {
      ghost var before := Current();
      if Inv(before) {
        TransitionKeepsInv(before, ev, now);
      }
      if ev.rotary > 0 || ev.key > 0 {
        lastInput := now;
      }
      if state != Setting {
        t := WithClock(t, ev);
      }
      ghost var u := Current();
      assert u == Refresh(Touch(before, ev, now), ev);
      if state == Active {
        StepActive(ev, now);
      } else if state == Screensaver {
        StepScreensaver(ev);
      } else {
        StepSetting(ev);
      }
    }

    /** The ACTIVE screen's part of a pass. */
    method StepActive(ev: Input, now: real)
      modifies this
      ensures halted == old(halted)
      ensures Current() == ActiveStep(old(Current()), ev, now) && written == old(written)
    {
      if now - lastInput >= IdleToScreensaver {
        state := Screensaver;
        ssTick := 0;
      } else if ev.key > 0 {
        state := Setting;
        cursor := 7;
        mode := 0;
      } else if ev.rotary == 1 {
        clockDelta := Clamp(clockDelta + 1, -32, 32);
      } else if ev.rotary == 2 {
        clockDelta := Clamp(clockDelta - 1, -32, 32);
      }
    }

    /** The SCREENSAVER's part of a pass. */
    method StepScreensaver(ev: Input)
      modifies this
      ensures halted == old(halted)
      ensures Current() == ScreensaverStep(old(Current()), ev) && written == old(written)
    {
      ssTick := ssTick + 1;
      if ev.rotary > 0 {
        state := Active;
      }
    }

    /** The SETTING screen's part of a pass; OK hands the record to `write_time`. */
    method StepSetting(ev: Input)
      modifies this
      ensures halted == old(halted)
      ensures var o := SettingStep(old(Current()), ev);
        Current() == o.ui && written == old(written) + (if o.write.Some? then [o.write.value] else [])
    {
      if mode == 0 {
        if ev.rotary == 1 {
          cursor := (cursor + 1) % 8;
        } else if ev.rotary == 2 {
          cursor := (cursor - 1) % 8;
        } else if ev.key == 1 {
          if cursor < 6 {
            mode := 1;
          } else if cursor == 6 {
            written := written + [TimeToStr(t)];
            state := Active;
          } else if cursor == 7 {
            t := WithClock(t, ev);
            state := Active;
          }
        }
      } else if mode == 1 {
        if ev.rotary == 1 {
          t := Edit(t, cursor, 1);
        } else if ev.rotary == 2 {
          t := Edit(t, cursor, -1);
        } else if ev.key == 1 {
          mode := 0;
        }
      }
    }

    /**
     * The rest of the loop body for one read buffer: strip, decode, and
     * run a pass when the buffer holds one event.
     */
    method Feed(text: string, now: real) returns (r: FeedResult)
      requires !halted
      modifies this
      ensures halted <==> r == Halted
      ensures r == Classify(text)
      ensures r == Stepped ==>
        var o := Transition(old(Current()), Decode(Strip(text)).ev, now);
        Current() == o.ui && written == old(written) + (if o.write.Some? then [o.write.value] else [])
      ensures r != Stepped ==> Current() == old(Current()) && written == old(written)
      ensures old(Valid()) ==> Valid()
    {
      var line := Strip(text);
      var d := Decode(line);
      if d.NoEvent? {
        r := Ignored;
      } else if d.Malformed? {
        r := Halted;
        halted := true;
      } else {
        Step(d.ev, now);
        r := Stepped;
      }
    }
  }
}
