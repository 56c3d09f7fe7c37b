/**
 * The integer side of drawing the three screens on the 128x64 OLED:
 * the screensaver's offsets, the analog clock's position, the Setting
 * screen's cursor marker and the text lines. Pixels, fonts and
 * trigonometry are not modelled.
 */
module Render {
  import opened Wrappers
  import opened PyText
  import opened TimeCodec
  import opened UiController

  const ScreenWidth := 128
  const ScreenHeight := 64

  // ---------------------------------------------------------------- screensaver

  /** `delta_pos`: a triangle wave of `tick` between -32 and 32, period 128. */
  function DeltaPos(tick: int): (d: int)
    ensures -32 <= d <= 32
  {
    var p := (tick + 32) % 128;
    if p < 64 then p - 32 else 128 - p - 32
  }

  /** `delta_size`: a triangle wave of `tick` between 0 and 4, period 8. */
  function DeltaSize(tick: int): (d: int)
    ensures 0 <= d <= 4
  {
    var p := tick % 8;
    if p < 4 then p else 8 - p
  }

  /** The star starts centred and at its smallest. */
  lemma DeltaAtZero()
    ensures DeltaPos(0) == 0 && DeltaSize(0) == 0
  {
  }

  /** Both offsets depend on the tick only modulo 128. */
  lemma DeltasPeriodic(tick: int, k: int)
    ensures DeltaPos(tick + 128 * k) == DeltaPos(tick)
    ensures DeltaSize(tick + 128 * k) == DeltaSize(tick)
  {
    assert (tick + 128 * k + 32) % 128 == (tick + 32) % 128;
    assert (tick + 128 * k) % 8 == tick % 8 by {
      assert tick + 128 * k == tick + 8 * (16 * k);
    }
  }

  /** One tick moves the star by exactly one pixel. */
  lemma DeltaPosStep(tick: int)
    ensures DeltaPos(tick + 1) - DeltaPos(tick) == 1 || DeltaPos(tick + 1) - DeltaPos(tick) == -1
  {
    var k := (tick + 32) / 128;
    var p := (tick + 32) % 128;
    assert tick + 32 == 128 * k + p;
    if p < 127 {
      assert tick + 1 + 32 == 128 * k + (p + 1);
      assert (tick + 1 + 32) % 128 == p + 1;
    } else {
      assert tick + 1 + 32 == 128 * (k + 1);
      assert (tick + 1 + 32) % 128 == 0;
    }
  }

  /** One tick changes the star's size by exactly one. */
  lemma DeltaSizeStep(tick: int)
    ensures DeltaSize(tick + 1) - DeltaSize(tick) == 1 || DeltaSize(tick + 1) - DeltaSize(tick) == -1
  {
    var k := tick / 8;
    var q := tick % 8;
    assert tick == 8 * k + q;
    if q < 7 {
      assert tick + 1 == 8 * k + (q + 1);
      assert (tick + 1) % 8 == q + 1;
    } else {
      assert tick + 1 == 8 * (k + 1);
      assert (tick + 1) % 8 == 0;
    }
  }

  /** Each tick moves the star by exactly one pixel and its size by exactly one. */
  lemma DeltasStepByOne(tick: int)
    ensures DeltaPos(tick + 1) - DeltaPos(tick) == 1 || DeltaPos(tick + 1) - DeltaPos(tick) == -1
    ensures DeltaSize(tick + 1) - DeltaSize(tick) == 1 || DeltaSize(tick + 1) - DeltaSize(tick) == -1
  {
    DeltaPosStep(tick);
    DeltaSizeStep(tick);
  }

  /** The star is centred on `(64 + delta_pos, 32)` with outer radius `22 + delta_size`. */
  function StarCentreX(tick: int): int { 64 + DeltaPos(tick) }
  function StarRadius(tick: int): int { 22 + DeltaSize(tick) }

  /** The disc holding the star lies on the screen for every tick. */
  lemma StarOnScreen(tick: int)
    ensures 0 <= StarCentreX(tick) - StarRadius(tick)
    ensures StarCentreX(tick) + StarRadius(tick) < ScreenWidth
    ensures 0 <= 32 - StarRadius(tick) && 32 + StarRadius(tick) < ScreenHeight
  {
  }

  // ---------------------------------------------------------------- active screen

  /** `YY/MM/DD`, the date line of the ACTIVE screen. */
  function DateText(t: DateTime): string {
    Pad2(t.year) + "/" + Pad2(t.month) + "/" + Pad2(t.date)
  }

  /** `hh:mm:ss`, the time line of the ACTIVE screen. */
  function TimeText(t: DateTime): string {
    Pad2(t.hours) + ":" + Pad2(t.minutes) + ":" + Pad2(t.seconds)
  }

  lemma DateTextLayout(t: DateTime)
    requires FieldsBelow100(t)
    ensures DateText(t) == TwoDigits(t.year) + "/" + TwoDigits(t.month) + "/" + TwoDigits(t.date)
    ensures |DateText(t)| == 8 && DateText(t)[2] == '/' && DateText(t)[5] == '/'
  {
    Pad2TwoDigits(t.year);
    Pad2TwoDigits(t.month);
    Pad2TwoDigits(t.date);
  }

  lemma TimeTextLayout(t: DateTime)
    requires FieldsBelow100(t)
    ensures TimeText(t) == TwoDigits(t.hours) + ":" + TwoDigits(t.minutes) + ":" + TwoDigits(t.seconds)
    ensures |TimeText(t)| == 8 && TimeText(t)[2] == ':' && TimeText(t)[5] == ':'
  {
    Pad2TwoDigits(t.hours);
    Pad2TwoDigits(t.minutes);
    Pad2TwoDigits(t.seconds);
  }

  /** The analog clock's centre, `cx = 64 + clock_delta_pos`, `cy = 38`, radius 22. */
  function ClockCentreX(clockDelta: int): int { 64 + clockDelta }
  const ClockCentreY := 38
  const ClockRadius := 22

  /** While the shift stays in [-32, 32] the clock's disc lies on the screen. */
  lemma ClockOnScreen(clockDelta: int)
    requires -32 <= clockDelta <= 32
    ensures 0 <= ClockCentreX(clockDelta) - ClockRadius
    ensures ClockCentreX(clockDelta) + ClockRadius < ScreenWidth
    ensures 0 <= ClockCentreY - ClockRadius && ClockCentreY + ClockRadius < ScreenHeight
  {
  }

  // ---------------------------------------------------------------- setting screen

  /** `YY / MM / DD   hh : mm : ss`, the Setting screen's record line. */
  function SettingText(t: DateTime): string {
    Pad2(t.year) + " / " + Pad2(t.month) + " / " + Pad2(t.date) + "   "
    + Pad2(t.hours) + " : " + Pad2(t.minutes) + " : " + Pad2(t.seconds)
  }

  /** Where the field under cursor position `k` starts in the record line. */
  function SettingFieldOffset(k: nat): (o: nat)
    requires k < 6
    ensures o == 5 * k
  {
    [0, 5, 10, 15, 20, 25][k]
  }

  /** The value shown for cursor position `k` (year, month, date, hours, minutes, seconds). */
  function FieldAt(t: DateTime, k: nat): int
    requires k < 6
  {
    [t.year, t.month, t.date, t.hours, t.minutes, t.seconds][k]
  }

  /** 27 characters, with the digits of field `k` at offset `5 k`. */
  lemma SettingTextLayout(t: DateTime, k: nat)
    requires FieldsBelow100(t) && k < 6
    ensures |SettingText(t)| == 27
    ensures var o := SettingFieldOffset(k);
      SettingText(t)[o..o + 2] == TwoDigits(FieldAt(t, k))
  {
    Pad2TwoDigits(t.year);
    Pad2TwoDigits(t.month);
    Pad2TwoDigits(t.date);
    Pad2TwoDigits(t.hours);
    Pad2TwoDigits(t.minutes);
    Pad2TwoDigits(t.seconds);
    var y, mo, d := TwoDigits(t.year), TwoDigits(t.month), TwoDigits(t.date);
    var h, mi, s := TwoDigits(t.hours), TwoDigits(t.minutes), TwoDigits(t.seconds);
    var line := y + " / " + mo + " / " + d + "   " + h + " : " + mi + " : " + s;
    assert SettingText(t) == line;
    if k == 0 {
      assert line[0..2] == y;
    } else if k == 1 {
      assert line[5..7] == mo;
    } else if k == 2 {
      assert line[10..12] == d;
    } else if k == 3 {
      assert line[15..17] == h;
    } else if k == 4 {
      assert line[20..22] == mi;
    } else {
      assert line[25..27] == s;
    }
  }

  /** A filled or hollow upward triangle: apex, lower left and lower right corner. */
  datatype Marker = Marker(apex: (int, int), left: (int, int), right: (int, int), filled: bool)

  /** `draw_triangle_up` with its default size 8. */
  function TriangleUp(x: int, y: int, mode: int): (m: Marker)
    ensures m.filled <==> mode == 1
    ensures m.left.1 == m.right.1 == m.apex.1 + 8 && m.right.0 - m.left.0 == 8
    ensures m.apex.0 - m.left.0 == m.right.0 - m.apex.0
  {
    Marker((x + 8 / 2, y), (x, y + 8), (x + 8, y + 8), mode == 1)
  }

  /**
   * The marker's left edge for cursor position `idx`. Outside 0..7 the
   * source reuses a width measured from the font, which is not modelled.
   */
  function MarkerX(idx: int): (x: Option<int>)
    ensures x.Some? <==> 0 <= idx < 8
  {
    if 0 <= idx < 8 then Some([12, 32, 52, 70, 88, 106, 34, 76][idx]) else None
  }

  /** The marker drawn for cursor `idx` in `mode`: under the record line, or under the buttons. */
  function SettingMarker(idx: int, mode: int): (m: Option<Marker>)
    ensures m.Some? <==> 0 <= idx < 8
    ensures m.Some? ==> (m.value.filled <==> mode == 1)
    ensures m.Some? ==> m.value.apex.1 == if idx < 6 then 28 else 54
  {
    match MarkerX(idx)
    case None => None
    case Some(x) => Some(TriangleUp(x, if idx < 6 then 28 else 54, mode))
  }

  /** Every marker lies on the screen. */
  lemma MarkerOnScreen(idx: int, mode: int)
    requires 0 <= idx < 8
    ensures var m := SettingMarker(idx, mode).value;
      0 <= m.left.0 && m.right.0 < ScreenWidth && 0 <= m.apex.1 && m.left.1 < ScreenHeight
  {
  }

  // ---------------------------------------------------------------- the frame

  /** What one pass draws, by screen. */
  datatype Frame =
    | ActiveFrame(date: string, time: string, clockX: int)
    | ScreensaverFrame(starX: int, starRadius: int)
    | SettingFrame(record: string, marker: Option<Marker>)

  /** The render dispatch at the end of the loop body. */
  function Draw(ui: Ui): (f: Frame)
    ensures f.ActiveFrame? <==> ui.state == Active
    ensures f.ScreensaverFrame? <==> ui.state == Screensaver
    ensures f.SettingFrame? <==> ui.state == Setting
  {
    match ui.state
    case Active => ActiveFrame(DateText(ui.t), TimeText(ui.t), ClockCentreX(ui.clockDelta))
    case Screensaver => ScreensaverFrame(StarCentreX(ui.ssTick), StarRadius(ui.ssTick))
    case Setting => SettingFrame(SettingText(ui.t), SettingMarker(ui.cursor, ui.mode))
  }

  /**
   * Under the loop invariant every frame is placed on the screen, and the
   * Setting screen always has its marker, filled exactly in edit mode.
   */
  lemma DrawWithinScreen(ui: Ui)
    requires Inv(ui)
    ensures var f := Draw(ui);
      (f.ActiveFrame? ==> f.clockX - ClockRadius >= 0 && f.clockX + ClockRadius < ScreenWidth)
      && (f.ScreensaverFrame? ==> f.starX - f.starRadius >= 0 && f.starX + f.starRadius < ScreenWidth)
      && (f.SettingFrame? ==> f.marker.Some? && (f.marker.value.filled <==> ui.mode == 1))
  {
    ClockOnScreen(ui.clockDelta);
    StarOnScreen(ui.ssTick);
  }
}
