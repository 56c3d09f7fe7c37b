# OLED clock with a DS1302 character device, in Dafny

This project models both halves of a small Raspberry Pi clock and proves their properties, including round trips across the wire between them.

- **Kernel character device** (`my_custom_dev.c`):
  - reads a rotary encoder and its push key through two interrupt lines;
  - keeps a DS1302 real-time clock record;
  - talks to the chip over a three-wire LSB-first serial line, in BCD;
  - offers one ASCII line per `read` (`YYMMDDhhmmssRK\n`) and accepts one per `write` (`YYMMDDhhmmss\n`).
- **Python UI controller** (`my_custom_app.py`):
  - polls the device, decodes each line and drives a three-screen state machine (ACTIVE, SCREENSAVER, SETTING) on a 128x64 OLED;
  - writes the clock back when the user confirms an edit.
- **Shared helpers**: the calendar and codec helpers are byte-identical in `my_custom_oled_test_app.py`, and one module models both copies.

Modules, one per file:

- `wrappers.dfy`: `Option`.
- `pytext.dfy` (`PyText`): the parts of Python's string handling the helpers rely on.
  - `str.strip()` with the full `str.isspace` set, and the `splitlines` boundaries.
  - `int()` on ASCII text: surrounding whitespace, an optional sign, digits with single underscores.
  - The `02d` and `01d` formats, which Python and C share for the values used.
- `time_codec.dfy` (`TimeCodec`): the shared helpers.
  - The `DS1302DateTime` record, `days_in_month` and `clamp`.
  - `time_to_str`, `parse_time_input` (as `Decode`) and `read_time_ipnut`.
- `ui_controller.dfy` (`UiController`): one pass of `main`'s loop.
  - `Transition`, a function of the loop variables, the parsed event and the current time.
  - The `Controller` class, whose `Step` method updates the variables in place and logs each `write_time` line.
  - `Classify`, which models how `main` treats a whole read buffer.
- `render.dfy` (`Render`): the integer parts of the three screens.
  - The screensaver's triangle waves, the analog clock's position, the text lines, and the Setting screen's marker table.
- `ds1302.dfy` (`Ds1302`): the chip protocol.
  - BCD conversion, `ds1302_tx`/`ds1302_rx` over sequences of data-pin levels, the register addresses, and the record-to-register mapping.
  - C's `uint8_t` values are the int subset type `Byte` with an explicit `% 256` on every store. The bit transfer works on `bv8`.
- `driver.dfy` (`CharDevice`): the driver's static variables and its file operations.
  - The interrupt handler with its debounce, `read`, `write`, `poll`, and the timer's refresh from the chip.
  - They are modelled as functions on a `DriverState` value and as the `Driver` class, whose methods update the fields in place.
- `wire.dfy` (`Wire`): both ends together. What the controller writes sets the driver's clock, and the line the driver produces decodes back to the same fields.

Inputs the model takes as parameters:

| quantity | modelled as |
|---|---|
| `time.time()` | a `real` timestamp |
| jiffies | a `nat` |
| `msecs_to_jiffies(DEBOUNCE_MS)` | a constructor parameter of `Driver`, since it depends on the kernel's tick rate |
| GPIO levels | integers passed to the interrupt handler |
| the DS1302 chip | a function from each read command to the byte the chip answers, passed to the timer; for round trips, a register file that stores each write command's byte at its address and answers a command with the register at that command's address, bit 0 cleared |
| the stack buffer's earlier contents | 64 bytes passed to `write` |
| a failing `copy_to_user` | a boolean passed to `read` |

Where the code and its comments or documentation point different ways, the model follows the code:

- **Stripped buffer, not the last line.** `main` strips the whole read buffer and decodes that. It does not take the last line, and `read_time_ipnut` is never called. Two lines in one buffer are therefore dropped (`TwoLinesDropped`).
- **Malformed lines raise.** A 14-character line with a character `int()` rejects raises `ValueError` rather than giving `None`. The exception leaves `main` (`Halted`).
- **`int()` is lenient.** `int()` accepts `" 5"`, `"+5"` and `"-5"`, so a two-character field can decode to anything in -9..99.
- **Year edits do not re-clamp.** Editing the year does not re-clamp the date. The month edit does.
- **Key tests differ.** The key is tested as `> 0` in ACTIVE and as `== 1` in SETTING.
- **`write` returns `count`.** `write` returns the caller's `count`, although it copies at most 63 bytes.
- **Shared debounce window.** The two interrupt lines share one debounce window.

## Model

| member | source | states |
|---|---|---|
| TimeCodec.DaysInMonth | trunk/bsp_device_driver/pi/my_custom_app.py:44-53 | every month has 28 to 31 days |
| TimeCodec.DaysInMonthTable | trunk/bsp_device_driver/pi/my_custom_oled_test_app.py:44-53 | for months 1..12 the result is the calendar table, February with 29 days exactly when the year is divisible by 4 |
| TimeCodec.DaysInMonthOtherMonths | trunk/bsp_device_driver/pi/my_custom_app.py:51-53 | every other month number, 0 and 13 among them, gets February's length |
| TimeCodec.Clamp | trunk/bsp_device_driver/pi/my_custom_app.py:59-60 | with lo <= hi the result lies in [lo, hi] and is v when v already does; with lo > hi it is lo; it is always v, lo or hi |
| TimeCodec.ClampIdempotent | trunk/bsp_device_driver/pi/my_custom_oled_test_app.py:59-60 | clamping twice is clamping once |
| TimeCodec.ClampSaturates | trunk/bsp_device_driver/pi/my_custom_app.py:59-60 | below the range the result is lo, above it hi |
| TimeCodec.TimeToStrLayout | trunk/bsp_device_driver/pi/my_custom_app.py:55-57 | for fields in 0..99 the line is 13 characters: the six fields as two digits each, year first, then a newline |
| TimeCodec.TimeToStrStripped | trunk/bsp_device_driver/pi/my_custom_oled_test_app.py:55-57 | stripping the line leaves its first twelve characters |
| TimeCodec.WithClock | trunk/bsp_device_driver/pi/my_custom_app.py:395-401 | the six clock fields become the event's; day of week, AM/PM and hour mode stay |
| TimeCodec.Combine | trunk/bsp_device_driver/pi/my_custom_app.py:131-140 | the dictionary exists exactly when all eight `int()` calls succeed |
| TimeCodec.ClockField | trunk/bsp_device_driver/pi/my_custom_app.py:132-137 | `int()` of a two-character slice, when it succeeds, lies in -9..99 |
| TimeCodec.SignalField | trunk/bsp_device_driver/pi/my_custom_app.py:138-139 | `int()` of the one-character slice succeeds exactly on an ASCII digit, with that digit's value |
| TimeCodec.Decode | trunk/bsp_device_driver/pi/my_custom_app.py:124-140 | no event exactly when the length is not 14; an event's clock fields lie in -9..99 and its signals in 0..9 |
| TimeCodec.DecodeFields | trunk/bsp_device_driver/pi/my_custom_app.py:128-140 | a 14-character line whose eight slices read as integers is the event of those integers, in slice order |
| TimeCodec.DecodeDigits | trunk/bsp_device_driver/pi/my_custom_app.py:124-140 | fourteen ASCII digits decode to the values of their slices, and writing that event back gives the line |
| TimeCodec.DigitsEventLine | trunk/bsp_device_driver/pi/my_custom_app.py:131-140 | the event of fourteen digits is in range and encodes to the same fourteen characters |
| TimeCodec.PyIntTwoCharsRejects | trunk/bsp_device_driver/pi/my_custom_app.py:132-137 | a two-character slice holding a character that is no digit, sign or whitespace makes `int()` fail |
| TimeCodec.DecodeClockFieldFails | trunk/bsp_device_driver/pi/my_custom_app.py:131-137 | one unreadable clock slice makes the whole decode raise |
| TimeCodec.DecodeRejectsForeignChar | trunk/bsp_device_driver/pi/my_custom_app.py:128-140 | a 14-character line with any character other than a digit, sign or whitespace raises rather than giving no event |
| TimeCodec.DecodeSignalsMustBeDigits | trunk/bsp_device_driver/pi/my_custom_app.py:138-139 | a non-digit in the rotary or key position raises |
| TimeCodec.EventLine | trunk/bsp_device_driver/pi/my_custom_app.py:124-128 | the `YYMMDDhhmmssRK` line of an in-range event is 14 characters, the length `parse_time_input` demands |
| TimeCodec.DecodeEventLine | trunk/bsp_device_driver/pi/my_custom_app.py:124-140 | decoding the line of an in-range event gives the event back |
| TimeCodec.EventLineOfDigits | trunk/bsp_device_driver/pi/my_custom_oled_test_app.py:124-140 | every line of fourteen digits is an in-range event whose line is the original |
| TimeCodec.StripEventLine | trunk/bsp_device_driver/pi/my_custom_app.py:364-366 | stripping an event line with its newline leaves the event line |
| TimeCodec.DecodeTimeToStr | trunk/bsp_device_driver/pi/my_custom_oled_test_app.py:55-57 | decoding the stripped `time_to_str` line plus two signal digits gives back the record's six fields and the signals |
| TimeCodec.Pieces | trunk/bsp_device_driver/pi/my_custom_app.py:116 | the text cut at every boundary character, empty pieces included; there is always at least one piece |
| TimeCodec.SplitLines | trunk/bsp_device_driver/pi/my_custom_app.py:116 | `str.splitlines()`: the empty text has no lines, `\r\n` is one boundary, no line follows a final boundary, and no line holds a boundary |
| TimeCodec.SplitLinesCrLf | trunk/bsp_device_driver/pi/my_custom_app.py:116 | a `\r\n` pair ends one line, not two |
| TimeCodec.SplitLinesNonBlank | trunk/bsp_device_driver/pi/my_custom_app.py:116 | the comprehension keeps the same lines from `splitlines` as from the boundary pieces, which differ only in empty lines |
| TimeCodec.NonBlank | trunk/bsp_device_driver/pi/my_custom_app.py:116 | the comprehension keeps at most as many lines as it is given |
| TimeCodec.NonBlankStripped | trunk/bsp_device_driver/pi/my_custom_app.py:116 | every kept line is non-empty and has no surrounding whitespace |
| TimeCodec.ReadTimeInput | trunk/bsp_device_driver/pi/my_custom_app.py:113-122 | the answer is empty or has no whitespace at either end |
| TimeCodec.ReadTimeInputOneLine | trunk/bsp_device_driver/pi/my_custom_oled_test_app.py:113-122 | on text without line boundaries the answer is the text stripped |
| TimeCodec.ReadTimeInputLastWins | trunk/bsp_device_driver/pi/my_custom_app.py:116-122 | across a line boundary the part after it decides, unless that part is blank |
| TimeCodec.ReadTimeInputEmptyIff | trunk/bsp_device_driver/pi/my_custom_oled_test_app.py:110-122 | the answer is empty exactly when the text is empty or all whitespace |
| TimeCodec.PiecesSplit | trunk/bsp_device_driver/pi/my_custom_app.py:116 | splitting at a boundary character splits the pieces |
| TimeCodec.PiecesNoBreak | trunk/bsp_device_driver/pi/my_custom_app.py:116 | text without a boundary is one piece |
| TimeCodec.NonBlankAppend | trunk/bsp_device_driver/pi/my_custom_app.py:116 | the comprehension distributes over concatenation |
| PyText.Strip | trunk/bsp_device_driver/pi/my_custom_app.py:116 | `str.strip()`: no longer than the text, with no whitespace at either end |
| PyText.StripInside | trunk/bsp_device_driver/pi/my_custom_app.py:350 | the stripped text is the slice after the leading whitespace, and only whitespace lies around it |
| PyText.StripEmptyIff | trunk/bsp_device_driver/pi/my_custom_app.py:380-381 | the stripped text is empty exactly when the text is all whitespace |
| PyText.StripIdempotent | trunk/bsp_device_driver/pi/my_custom_app.py:116 | stripping twice is stripping once |
| PyText.PyIntTwoDigits | trunk/bsp_device_driver/pi/my_custom_app.py:132 | `int()` of two ASCII digits is their two-digit value |
| PyText.PyIntOneChar | trunk/bsp_device_driver/pi/my_custom_app.py:138 | `int()` of one character succeeds exactly on a digit |
| PyText.PyIntTwoCharsRange | trunk/bsp_device_driver/pi/my_custom_app.py:132-137 | whatever `int()` makes of two characters lies in -9..99 |
| PyText.Pad2TwoDigits | trunk/bsp_device_driver/pi/my_custom_app.py:57 | `02d` of 0..99 is its two digits |
| PyText.PyIntPad2 | trunk/bsp_device_driver/pi/my_custom_app.py:57 | `int()` reads back what `02d` writes for 0..99 |
| PyText.TwoDigitsOfValue | trunk/bsp_device_driver/pi/my_custom_app.py:132-137 | reading two digits and writing the value back gives the same characters |
| UiController.InitialUi | trunk/bsp_device_driver/pi/my_custom_app.py:309-325 | the loop starts in ACTIVE, with a valid record, the idle timer at the start time, and the loop invariant holding |
| UiController.InitialLine | trunk/bsp_device_driver/pi/my_custom_app.py:313-314 | the first line written is `251229102030\n` |
| UiController.Transition | trunk/bsp_device_driver/pi/my_custom_app.py:387-465 | a pass writes nothing but `time_to_str` of the record it started with |
| UiController.TransitionTouch | trunk/bsp_device_driver/pi/my_custom_app.py:389-392 | the idle timer becomes `now` exactly on rotary or key activity |
| UiController.TransitionRefreshesClock | trunk/bsp_device_driver/pi/my_custom_app.py:395-401 | outside SETTING the record's clock fields become the event's |
| UiController.TransitionSettingKeepsRecord | trunk/bsp_device_driver/pi/my_custom_app.py:423-465 | in SETTING the record changes only by an edit step or by CANCEL |
| UiController.ActiveIdleIff | trunk/bsp_device_driver/pi/my_custom_app.py:391-408 | ACTIVE falls to the screensaver, counter at 0, exactly on an event without activity 10 s or more after the last one |
| UiController.ActiveKeyOpensSetting | trunk/bsp_device_driver/pi/my_custom_app.py:409-414 | a key in ACTIVE opens SETTING on CANCEL in cursor mode |
| UiController.ActiveRotaryShifts | trunk/bsp_device_driver/pi/my_custom_app.py:415-418 | rotary 1 shifts the clock right and 2 left by one, saturating at ±32 |
| UiController.ScreensaverTicks | trunk/bsp_device_driver/pi/my_custom_app.py:419-422 | every event advances the counter by one; the screensaver ends exactly on rotary activity |
| UiController.SettingCursorMoves | trunk/bsp_device_driver/pi/my_custom_app.py:424-430 | in cursor mode the rotary moves the cursor forward or back around 0..7 |
| UiController.SettingCursorRoundTrip | trunk/bsp_device_driver/pi/my_custom_app.py:425-430 | a step forward then back restores every variable but the idle timer |
| UiController.TransitionWritesIff | trunk/bsp_device_driver/pi/my_custom_app.py:431-436 | a line is written exactly on key 1 on OK in cursor mode |
| UiController.SettingOk | trunk/bsp_device_driver/pi/my_custom_app.py:434-436 | OK writes `time_to_str` of the edited record and returns to ACTIVE |
| UiController.SettingCancel | trunk/bsp_device_driver/pi/my_custom_app.py:437-444 | CANCEL reloads the clock fields from the event, returns to ACTIVE and writes nothing |
| UiController.SettingModeToggles | trunk/bsp_device_driver/pi/my_custom_app.py:431-433 | the key on a field enters edit mode and the key in edit mode leaves it, cursor and record unchanged |
| UiController.SettingEdits | trunk/bsp_device_driver/pi/my_custom_app.py:445-463 | in edit mode the rotary applies one edit step to the field under the cursor, and nothing else changes |
| UiController.TransitionKeepsInv | trunk/bsp_device_driver/pi/my_custom_app.py:387-465 | cursor in 0..7, mode 0 or 1, edit mode only on a field in SETTING, clock shift in ±32: kept by every pass |
| UiController.EditOnlyField | trunk/bsp_device_driver/pi/my_custom_app.py:446-463 | an edit step changes only the field under the cursor, and the date with the month |
| UiController.EditYearWraps | trunk/bsp_device_driver/pi/my_custom_app.py:447 | the year wraps modulo 100 (99 + 1 is 0, 0 - 1 is 99) and the date is not re-clamped |
| UiController.EditYearUndo | trunk/bsp_device_driver/pi/my_custom_app.py:447-456 | up then down, or down then up, gives back any two-digit year |
| UiController.EditMonthReclamps | trunk/bsp_device_driver/pi/my_custom_app.py:448-450 | a month step lands in 1..12 and pulls the date into that month's length |
| UiController.EditSaturates | trunk/bsp_device_driver/pi/my_custom_app.py:451-454 | date, hours, minutes and seconds move by one inside their range and stick at its bounds |
| UiController.EditKeepsValid | trunk/bsp_device_driver/pi/my_custom_app.py:448-463 | editing any field but the year keeps a valid date valid |
| UiController.EditYearKeepsValid | trunk/bsp_device_driver/pi/my_custom_app.py:447 | the year edit keeps a valid date valid unless it is 29 February |
| UiController.YearEditLeavesFeb29 | trunk/bsp_device_driver/pi/my_custom_app.py:447 | 29 February of year 24 stepped up is the invalid 29 February of year 25 |
| UiController.Classify | trunk/bsp_device_driver/pi/my_custom_app.py:364-385 | a buffer is ignored exactly when its stripped text is not 14 characters long |
| UiController.TwoLinesDropped | trunk/bsp_device_driver/pi/my_custom_app.py:348-350 | two 14-digit lines in one read are ignored by `main`, although `read_time_ipnut` would have chosen the second |
| UiController.Controller.constructor | trunk/bsp_device_driver/pi/my_custom_app.py:309-325 | the initial variables, with the initial record written once |
| UiController.Controller.Step | trunk/bsp_device_driver/pi/my_custom_app.py:387-465 | the variables become `Transition`'s, the written line is appended to the log, and the invariant is kept |
| UiController.Controller.StepActive | trunk/bsp_device_driver/pi/my_custom_app.py:405-418 | the ACTIVE branch in place, as `ActiveStep` |
| UiController.Controller.StepScreensaver | trunk/bsp_device_driver/pi/my_custom_app.py:419-422 | the SCREENSAVER branch in place, as `ScreensaverStep` |
| UiController.Controller.StepSetting | trunk/bsp_device_driver/pi/my_custom_app.py:423-465 | the SETTING branch in place, logging the line OK writes |
| UiController.Controller.Feed | trunk/bsp_device_driver/pi/my_custom_app.py:364-385 | a buffer runs one pass exactly when it decodes to an event; otherwise nothing changes, and a `ValueError` halts the loop so that no further buffer is taken |
| Render.DeltaPos | trunk/bsp_device_driver/pi/my_custom_app.py:235 | the star's shift lies in [-32, 32] |
| Render.DeltaSize | trunk/bsp_device_driver/pi/my_custom_app.py:236 | the star's growth lies in [0, 4] |
| Render.DeltaAtZero | trunk/bsp_device_driver/pi/my_custom_app.py:235-236 | at tick 0 the star is centred and smallest |
| Render.DeltasPeriodic | trunk/bsp_device_driver/pi/my_custom_app.py:235-236 | both offsets depend only on the tick modulo 128 |
| Render.DeltasStepByOne | trunk/bsp_device_driver/pi/my_custom_app.py:235-236 | each tick moves both offsets by exactly one |
| Render.StarOnScreen | trunk/bsp_device_driver/pi/my_custom_app.py:235-238 | the star's outer disc always lies on the 128x64 screen |
| Render.ClockOnScreen | trunk/bsp_device_driver/pi/my_custom_app.py:215 | for a shift in ±32 the analog clock's disc lies on the screen |
| Render.DateTextLayout | trunk/bsp_device_driver/pi/my_custom_app.py:204 | `YY/MM/DD`, 8 characters with slashes at 2 and 5 |
| Render.TimeTextLayout | trunk/bsp_device_driver/pi/my_custom_app.py:205 | `hh:mm:ss`, 8 characters with colons at 2 and 5 |
| Render.SettingTextLayout | trunk/bsp_device_driver/pi/my_custom_app.py:260 | the record line is 27 characters with field k's two digits at offset 5k |
| Render.TriangleUp | trunk/bsp_device_driver/pi/my_custom_app.py:252-257 | an isosceles triangle 8 wide and 8 high, filled exactly in mode 1 |
| Render.MarkerX | trunk/bsp_device_driver/pi/my_custom_app.py:271-278 | the table gives a position exactly for cursor 0..7 |
| Render.SettingMarker | trunk/bsp_device_driver/pi/my_custom_app.py:271-280 | the marker sits at y 28 under a field and 54 under a button, filled exactly in mode 1 |
| Render.MarkerOnScreen | trunk/bsp_device_driver/pi/my_custom_app.py:271-280 | every marker lies on the screen |
| Render.Draw | trunk/bsp_device_driver/pi/my_custom_app.py:468-476 | the frame drawn is the current screen's |
| Render.DrawWithinScreen | trunk/bsp_device_driver/pi/my_custom_app.py:468-476 | under the loop invariant every frame is on the screen and SETTING always has its marker |
| Ds1302.BcdToDec | trunk/bsp_device_driver/ubuntu/my_custom_dev.c:94-97 | any byte converts to below 166 |
| Ds1302.DecToBcdNibbles | trunk/bsp_device_driver/ubuntu/my_custom_dev.c:89-92 | for 0..99 the high nibble holds the tens and the low nibble the units |
| Ds1302.BcdRoundTrip | trunk/bsp_device_driver/ubuntu/my_custom_dev.c:89-97 | decimal to BCD and back is the identity exactly below 160 |
| Ds1302.DecRoundTrip | trunk/bsp_device_driver/ubuntu/my_custom_dev.c:89-97 | BCD to decimal and back is the identity on every byte with two decimal nibbles |
| Ds1302.TxBits | trunk/bsp_device_driver/ubuntu/my_custom_dev.c:117-127 | eight levels, the i-th being bit i |
| Ds1302.Pack | trunk/bsp_device_driver/ubuntu/my_custom_dev.c:136-146 | bit i of the byte is the i-th sample |
| Ds1302.PackTxBits | trunk/bsp_device_driver/ubuntu/my_custom_dev.c:110-147 | receiving what was sent gives the byte, and sending what was received gives the levels |
| Ds1302.BitsDetermine | trunk/bsp_device_driver/ubuntu/my_custom_dev.c:118-120 | a byte is fixed by its eight bits |
| Ds1302.Tx | trunk/bsp_device_driver/ubuntu/my_custom_dev.c:110-128 | the levels driven are bit 0 to bit 7, with eight clock pulses |
| Ds1302.Rx | trunk/bsp_device_driver/ubuntu/my_custom_dev.c:130-147 | the byte has the sampled bits, with seven clock pulses |
| Ds1302.WriteRegister | trunk/bsp_device_driver/ubuntu/my_custom_dev.c:149-162 | command then data, sixteen pulses |
| Ds1302.ReadRegister | trunk/bsp_device_driver/ubuntu/my_custom_dev.c:164-182 | the command goes out and the sampled byte is read as BCD, fifteen pulses |
| Ds1302.RegisterMap | trunk/bsp_device_driver/ubuntu/my_custom_dev.c:66-74 | the write addresses are distinct even bytes from 0x80; each read address sets bit 0 and is no write address |
| Ds1302.WriteDateTime | trunk/bsp_device_driver/ubuntu/my_custom_dev.c:184-193 | seven commands, addressed in register order |
| Ds1302.SecondsMask | trunk/bsp_device_driver/ubuntu/my_custom_dev.c:186 | the `& 0x7f` loses nothing below 80 seconds and eighty from 80 to 99 |
| Ds1302.ReadDateTime | trunk/bsp_device_driver/ubuntu/my_custom_dev.c:195-204 | the field held by register i is the BCD decoding of the chip's answer to the read command `ClockRegisters[i] + 1`; AM/PM and hour mode are kept |
| Ds1302.DateTimeReads | trunk/bsp_device_driver/ubuntu/my_custom_dev.c:197-203 | the seven read commands, in order, are each time register's write address plus one |
| Ds1302.ReadReachesRegister | trunk/bsp_device_driver/ubuntu/my_custom_dev.c:66 | the read command `addr + 1` of every time register reaches the register at `addr` |
| Ds1302.WrittenAt | trunk/bsp_device_driver/ubuntu/my_custom_dev.c:184-193 | after the write commands, each register holds the byte its command wrote, the addresses being distinct |
| Ds1302.WriteThenRead | trunk/bsp_device_driver/ubuntu/my_custom_dev.c:184-204 | writing the record to a register file and reading every register back at its write address plus one gives the record again, the day of week included and AM/PM and hour mode kept from before, for seconds below 80 and other fields below 160 |
| CharDevice.InitialDriverInv | trunk/bsp_device_driver/ubuntu/my_custom_dev.c:57-61 | the zeroed statics satisfy the invariant and nothing is readable |
| CharDevice.InterruptDebounced | trunk/bsp_device_driver/ubuntu/my_custom_dev.c:221-227 | inside the window nothing changes, not even its start; outside it the start moves to now and a flag is raised |
| CharDevice.InterruptRotary | trunk/bsp_device_driver/ubuntu/my_custom_dev.c:229-243 | S1 low decodes 2 or 1 from S2, S1 high keeps the value; the flag is raised either way |
| CharDevice.InterruptKey | trunk/bsp_device_driver/ubuntu/my_custom_dev.c:244-251 | a low key pin records a press; the flag is raised either way |
| CharDevice.DebounceShared | trunk/bsp_device_driver/ubuntu/my_custom_dev.c:221-227 | a key press inside the window of a rotary edge is lost |
| CharDevice.InterruptKeepsInv | trunk/bsp_device_driver/ubuntu/my_custom_dev.c:219-255 | the handler keeps the values in their ranges |
| CharDevice.ReadLineLayout | trunk/bsp_device_driver/ubuntu/my_custom_dev.c:272 | with two-digit fields and one-digit signals the line is 14 digits and a newline |
| CharDevice.ReadLineFits | trunk/bsp_device_driver/ubuntu/my_custom_dev.c:259-272 | every line has 15 to 21 characters, so the 64-byte buffer never truncates it |
| CharDevice.ReadConsumes | trunk/bsp_device_driver/ubuntu/my_custom_dev.c:270-286 | afterwards nothing is readable; the signals are reset exactly when the copy succeeds, which is exactly when a line is returned |
| CharDevice.ReadTwice | trunk/bsp_device_driver/ubuntu/my_custom_dev.c:270-284 | a second read with no interrupt in between carries the same clock and no rotary or key value |
| CharDevice.ReadKeepsInv | trunk/bsp_device_driver/ubuntu/my_custom_dev.c:258-287 | `read` keeps the invariant |
| CharDevice.DigitPairValue | trunk/bsp_device_driver/ubuntu/my_custom_dev.c:309-314 | two ASCII digits give their two-digit value, below 100 |
| CharDevice.Copied | trunk/bsp_device_driver/ubuntu/my_custom_dev.c:296-298 | at most 63 bytes, a prefix of the data |
| CharDevice.WriteBuffer | trunk/bsp_device_driver/ubuntu/my_custom_dev.c:295-302 | the copied bytes, the terminating zero, then the stale bytes |
| CharDevice.ParseWrite | trunk/bsp_device_driver/ubuntu/my_custom_dev.c:309-314 | the six clock fields come from buffer bytes 0 to 11; day of week, AM/PM and hour mode stay |
| CharDevice.ParseWritePrefix | trunk/bsp_device_driver/ubuntu/my_custom_dev.c:296-314 | from twelve bytes on only the first twelve matter, and the stale bytes do not |
| CharDevice.EmptyWriteUsesStale | trunk/bsp_device_driver/ubuntu/my_custom_dev.c:302-314 | an empty write parses the terminating zero and stale bytes |
| CharDevice.OnWrite | trunk/bsp_device_driver/ubuntu/my_custom_dev.c:289-318 | returns the caller's count; the record is parsed and sent to the chip |
| CharDevice.OnTimer | trunk/bsp_device_driver/ubuntu/my_custom_dev.c:206-213 | only the record changes, and only when the mutex is taken |
| CharDevice.Driver.constructor | trunk/bsp_device_driver/ubuntu/my_custom_dev.c:57-61 | zeroed statics and no commands sent |
| CharDevice.Driver.Interrupt | trunk/bsp_device_driver/ubuntu/my_custom_dev.c:219-255 | the fields become `OnInterrupt`'s; nothing is sent |
| CharDevice.Driver.Read | trunk/bsp_device_driver/ubuntu/my_custom_dev.c:258-287 | the fields and the result are `OnRead`'s |
| CharDevice.Driver.Write | trunk/bsp_device_driver/ubuntu/my_custom_dev.c:289-318 | the record is `ParseWrite`'s, the seven commands are appended to the log, and the count is returned |
| CharDevice.Driver.Timer | trunk/bsp_device_driver/ubuntu/my_custom_dev.c:206-213 | the fields become `OnTimer`'s, and with the mutex taken the seven read commands `ADDR_* + 1` are appended to the log of reads |
| CharDevice.Driver.Poll | trunk/bsp_device_driver/ubuntu/my_custom_dev.c:321-331 | `POLLIN \| POLLRDNORM` exactly while a flag is set, else 0 |
| Wire.Encode | trunk/bsp_device_driver/pi/my_custom_app.py:82 | one byte per ASCII character, with the character's code |
| Wire.TimeToStrAscii | trunk/bsp_device_driver/pi/my_custom_app.py:79-82 | the line `write_time` sends is 13 ASCII characters |
| Wire.TimeToStrFields | trunk/bsp_device_driver/pi/my_custom_app.py:55-57 | field k's two digits sit at offset 2k of the written line |
| Wire.PairOfField | trunk/bsp_device_driver/ubuntu/my_custom_dev.c:309-314 | the driver parses the two digits of a field as that field's value |
| Wire.WritePathSetsDriverClock | trunk/bsp_device_driver/ubuntu/my_custom_dev.c:289-318 | after `write_time` of a record with fields in 0..99, the driver holds its six fields, keeps the day of week, sends them to the chip and returns 13 |
| Wire.ReadLineIsEventLine | trunk/bsp_device_driver/ubuntu/my_custom_dev.c:272 | the driver's line is the controller's event line of the same values plus a newline |
| Wire.ReadPathDecodes | trunk/bsp_device_driver/pi/my_custom_app.py:364-385 | the stripped driver line decodes to the driver's six fields and two signals |
| Wire.WriteThenReadLine | trunk/bsp_device_driver/pi/my_custom_app.py:434-436 | a record written by OK comes back from the next read with the same six fields |
| Wire.DriverLinesAreEvents | trunk/bsp_device_driver/ubuntu/my_custom_dev.c:270-286 | under the driver invariant every successful read with two-digit fields runs one pass of the controller |
| Wire.TimerGivesTwoDigitFields | trunk/bsp_device_driver/ubuntu/my_custom_dev.c:195-213 | a refresh from a chip that answers valid BCD to the seven read commands leaves two-digit fields |
| Wire.WriteThenTimer | trunk/bsp_device_driver/ubuntu/my_custom_dev.c:184-216 | after `write_time` of a record with seconds below 80, a chip that keeps what was written gives the driver back on the next refresh exactly the record it holds |

## Left out

- **Display.** Drawing through `luma`/PIL, the SSD1306 transport, `oled_hw_reset` and the display cleanup are foreign libraries and hardware. `Draw` records only the integer inputs to drawing.
- **Float geometry.** `draw_analog_clock`, `star_points` and the star's rotation are floating-point trigonometry.
- **Font-metric positions.** `get_text_size` and the centred text positions depend on font metrics. So does the marker position outside cursor 0..7, which reuses the last measured width; `MarkerX` answers `None` there.
- **OS plumbing and reads.** `open_with_retry`, `os.read`, `os.write`, `select.poll` with its timeouts and error events, `time.sleep`, and the KeyboardInterrupt/finally cleanup are operating-system I/O. The read buffer is a `string` parameter of `Feed`, and UTF-8 decoding with replacement is not modelled.
- **Writes.** Each line `write_time` would send is appended to `Controller.written`. The `OSError` path that returns -1 is not modelled, since `main` ignores the result.
- **Unicode digits in `int()`.** `int()` also accepts non-ASCII Unicode decimal digits; `PyText.PyInt` accepts ASCII digits only.
- **Unused loop variables.** `last_sec_tick` is never read. The reset of `input_rot`/`input_key` at lines 413-414 has no effect on the rest of the pass.
- **Record fields the controller never changes.** Day of week, AM/PM and hour mode travel as fields of the record; wherever the model shows them, they are proved unchanged.
- **Kernel machinery.** Device registration, GPIO and IRQ requests, timer re-arming through `mod_timer`, the wait queue and its wake-up, and `msecs_to_jiffies` are kernel APIs. The debounce length is a parameter.
- **Concurrency.** The mutex is modelled only as a boolean for the timer. `read` and `write` do not take it in the source, and interleavings of handlers are not modelled.
- **Jiffies wrap-around.** `time_before` handles wrap-around; the model's jiffies are unbounded naturals.
- **User copies.**
  - A failing `copy_to_user` is a boolean.
  - `read` ignores `count`, so a user buffer shorter than the line is not modelled.
  - `copy_from_user` is assumed to copy everything. Its result is never negative, so the `ret < 0` test cannot fire.
- **`my_custom_app.c` and the test app's `main`.** `trunk/bsp_device_driver/ubuntu/my_custom_app.c` is a test loop that prints what it reads. The display smoke test in `main` of `my_custom_oled_test_app.py` is not part of this model.
- **`ParseWrite` and `WritePathSetsDriverClock` assume an ASCII line.** Only `write_time` lines, which are ASCII, are connected to the driver. Other byte strings are modelled as the driver's bytes directly.
- **Logging.** The `print` diagnostics of `main` and `write_time`, and the driver's `printk` calls, write only to the console and are not modelled.
- **Chip details.** The chip model covers only register storage and the read/write bit of a command. Clock halt, write protection, the RAM, burst mode and the 12-hour format are not modelled.
- ReadDateTime: takes the chip's answer to each read command as a byte, not as the eight levels `ds1302_read` samples; `ReadRegister` and `PackTxBits` model that transfer separately.
