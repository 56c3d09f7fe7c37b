/**
 * The helpers shared, character for character, by the two Raspberry Pi
 * programs: the DS1302 date/time record, the calendar helpers and the
 * ASCII line format spoken with the character device.
 */
module TimeCodec {
  import opened Wrappers
  import opened PyText

  /** The `DS1302DateTime` dataclass; Python `int` fields are unbounded. */
  datatype DateTime = DateTime(
    seconds: int, minutes: int, hours: int, date: int, month: int,
    dayofweek: int, year: int, ampm: int, hourmode: int)

  /** The record the controller starts from and writes to the device first. */
  const InitialTime := DateTime(30, 20, 10, 29, 12, 2, 25, 0, 0)

  /** The ranges a record has while it is a real two-digit-year date. */
  predicate ValidTime(t: DateTime) {
    0 <= t.year <= 99 && 1 <= t.month <= 12 && 1 <= t.date <= DaysInMonth(t.year, t.month)
    && 0 <= t.hours <= 23 && 0 <= t.minutes <= 59 && 0 <= t.seconds <= 59
  }

  /** These six fields, and only these, travel over the device's text protocol. */
  predicate SameClock(a: DateTime, b: DateTime) {
    a.year == b.year && a.month == b.month && a.date == b.date
    && a.hours == b.hours && a.minutes == b.minutes && a.seconds == b.seconds
  }

  // ---------------------------------------------------------------- calendar

  /**
   * Days in a month of a two-digit year: every month that is not one of
   * the listed eleven is treated as February, and every year divisible
   * by 4 as a leap year.
   */
  function DaysInMonth(year: int, month: int): (n: int)
    ensures 28 <= n <= 31
  {
    if month in {1, 3, 5, 7, 8, 10, 12} then 31
    else if month in {4, 6, 9, 11} then 30
    else if year % 4 == 0 then 29
    else 28
  }

  /** The lengths of January..December, as a calendar lists them. */
  function MonthLengths(leap: bool): (s: seq<int>)
    ensures |s| == 12
  {
    [31, if leap then 29 else 28, 31, 30, 31, 30, 31, 31, 30, 31, 30, 31]
  }

  /** For the twelve real months `DaysInMonth` is the calendar table. */
  lemma DaysInMonthTable(year: int, month: int)
    requires 1 <= month <= 12
    ensures DaysInMonth(year, month) == MonthLengths(year % 4 == 0)[month - 1]
  {
  }

  /** Any other month number, 0 and 13 among them, gets February's length. */
  lemma DaysInMonthOtherMonths(year: int, month: int)
    requires month < 1 || month > 12
    ensures DaysInMonth(year, month) == DaysInMonth(year, 2)
    ensures DaysInMonth(year, month) == if year % 4 == 0 then 29 else 28
  {
  }

  /** Python's `max(lo, min(hi, v))`; when `lo > hi` the answer is `lo`. */
  function Clamp(v: int, lo: int, hi: int): (r: int)
    ensures lo <= hi ==> lo <= r <= hi
    ensures lo <= v <= hi ==> r == v
    ensures lo > hi ==> r == lo
    ensures r == v || r == lo || r == hi
  {
    if hi < v then (if lo > hi then lo else hi)
    else if lo > v then lo
    else v
  }

  lemma ClampIdempotent(v: int, lo: int, hi: int)
    ensures Clamp(Clamp(v, lo, hi), lo, hi) == Clamp(v, lo, hi)
  {
  }

  /** Clamping saturates: below the range it gives `lo`, above it `hi`. */
  lemma ClampSaturates(v: int, lo: int, hi: int)
    requires lo <= hi
    ensures v < lo ==> Clamp(v, lo, hi) == lo
    ensures v > hi ==> Clamp(v, lo, hi) == hi
  {
  }

  // ---------------------------------------------------------------- write line

  /** `time_to_str`: `YYMMDDhhmmss` and a newline. */
  function TimeToStr(t: DateTime): (s: string)
  {
    Pad2(t.year) + Pad2(t.month) + Pad2(t.date) + Pad2(t.hours)
    + Pad2(t.minutes) + Pad2(t.seconds) + "\n"
  }

  predicate FieldsBelow100(t: DateTime) {
    0 <= t.year < 100 && 0 <= t.month < 100 && 0 <= t.date < 100
    && 0 <= t.hours < 100 && 0 <= t.minutes < 100 && 0 <= t.seconds < 100
  }

  /** Twelve digits of the six fields in protocol order, then a newline. */
  lemma TimeToStrLayout(t: DateTime)
    requires FieldsBelow100(t)
    ensures TimeToStr(t) == TwoDigits(t.year) + TwoDigits(t.month) + TwoDigits(t.date)
      + TwoDigits(t.hours) + TwoDigits(t.minutes) + TwoDigits(t.seconds) + "\n"
    ensures |TimeToStr(t)| == 13 && TimeToStr(t)[12] == '\n'
  {
    Pad2TwoDigits(t.year);
    Pad2TwoDigits(t.month);
    Pad2TwoDigits(t.date);
    Pad2TwoDigits(t.hours);
    Pad2TwoDigits(t.minutes);
    Pad2TwoDigits(t.seconds);
  }

  /** Stripping the line leaves its twelve digits. */
  lemma TimeToStrStripped(t: DateTime)
    requires FieldsBelow100(t)
    ensures Strip(TimeToStr(t)) == TimeToStr(t)[..12]
  {
    var s := TimeToStr(t);
    TimeToStrLayout(t);
    assert IsDigit(s[0]) && IsDigit(s[11]) && IsSpace(s[12]);
    assert SkipSpace(s, 0) == 0;
    assert BackSpace(s, 0, 13) == BackSpace(s, 0, 12) == 12;
  }

  // ---------------------------------------------------------------- read line

  /** What one read of the device carries: the clock and the two input signals. */
  datatype Input = Input(
    year: int, month: int, date: int, hours: int, minutes: int, seconds: int,
    rotary: int, key: int)

  /** The outcome of `parse_time_input`. */
  datatype Decoded =
    | NoEvent            // `None`: the line is not 14 characters long
    | Event(ev: Input)   // the dictionary of eight integers
    | Malformed          // one of the `int()` calls raised `ValueError`

  /** The clock fields of an event, written into a record; the rest of the record stays. */
  function WithClock(t: DateTime, ev: Input): (r: DateTime)
    ensures r.year == ev.year && r.month == ev.month && r.date == ev.date
    ensures r.hours == ev.hours && r.minutes == ev.minutes && r.seconds == ev.seconds
    ensures r.dayofweek == t.dayofweek && r.ampm == t.ampm && r.hourmode == t.hourmode
  {
    t.(year := ev.year, month := ev.month, date := ev.date,
       hours := ev.hours, minutes := ev.minutes, seconds := ev.seconds)
  }

  /** Eight `int()` outcomes combined: one `ValueError` spoils the whole dictionary. */
  function Combine(y: Option<int>, mo: Option<int>, d: Option<int>, h: Option<int>,
                   mi: Option<int>, s: Option<int>, rot: Option<int>, key: Option<int>): (r: Decoded)
    ensures r != NoEvent
    ensures r.Event? <==> y.Some? && mo.Some? && d.Some? && h.Some? && mi.Some? && s.Some?
                          && rot.Some? && key.Some?
  {
    if y.Some? && mo.Some? && d.Some? && h.Some? && mi.Some? && s.Some? && rot.Some? && key.Some?
    then Event(Input(y.value, mo.value, d.value, h.value, mi.value, s.value, rot.value, key.value))
    else Malformed
  }

  /** `int()` of a two-character date/time slice. */
  function ClockField(s: string): (r: Option<int>)
    requires |s| == 2
    ensures r.Some? ==> -9 <= r.value <= 99
  {
    PyIntTwoCharsRange(s);
    PyInt(s)
  }

  /** `int()` of the one-character rotary or key slice. */
  function SignalField(s: string): (r: Option<int>)
    requires |s| == 1
    ensures r.Some? <==> IsDigit(s[0])
    ensures r.Some? ==> r.value == DigitValue(s[0])
  {
    PyIntOneChar(s);
    PyInt(s)
  }

  /**
   * `parse_time_input`: a line of other than 14 characters is no event;
   * otherwise the eight slices are read with Python's `int()`.
   */
  function Decode(line: string): (r: Decoded)
    ensures r.NoEvent? <==> |line| != 14
    ensures r.Event? ==>
      (-9 <= r.ev.year <= 99 && -9 <= r.ev.month <= 99
       && -9 <= r.ev.date <= 99 && -9 <= r.ev.hours <= 99
       && -9 <= r.ev.minutes <= 99 && -9 <= r.ev.seconds <= 99)
    ensures r.Event? ==> 0 <= r.ev.rotary <= 9 && 0 <= r.ev.key <= 9
  {
    if |line| != 14 then NoEvent
    else
      Combine(ClockField(line[0..2]), ClockField(line[2..4]), ClockField(line[4..6]),
              ClockField(line[6..8]), ClockField(line[8..10]), ClockField(line[10..12]),
              SignalField(line[12..13]), SignalField(line[13..14]))
  }

  predicate AllDigits(s: string) {
    forall i :: 0 <= i < |s| ==> IsDigit(s[i])
  }

  /** A 14-character line whose eight slices all read as integers is exactly that event. */
  lemma DecodeFields(line: string, y: int, mo: int, d: int, h: int, mi: int, s: int,
                     rot: int, key: int)
    requires |line| == 14
    requires ClockField(line[0..2]) == Some(y) && ClockField(line[2..4]) == Some(mo)
    requires ClockField(line[4..6]) == Some(d) && ClockField(line[6..8]) == Some(h)
    requires ClockField(line[8..10]) == Some(mi) && ClockField(line[10..12]) == Some(s)
    requires SignalField(line[12..13]) == Some(rot) && SignalField(line[13..14]) == Some(key)
    ensures Decode(line) == Event(Input(y, mo, d, h, mi, s, rot, key))
  {
  }

  /** The event fourteen ASCII digits stand for: the values of their slices. */
  function DigitsInput(line: string): Input
    requires |line| == 14 && AllDigits(line)
  {
    Input(TwoDigitValue(line[0..2]), TwoDigitValue(line[2..4]), TwoDigitValue(line[4..6]),
          TwoDigitValue(line[6..8]), TwoDigitValue(line[8..10]), TwoDigitValue(line[10..12]),
          DigitValue(line[12]), DigitValue(line[13]))
  }

  /** Fourteen ASCII digits decode to the decimal values of their slices. */
  lemma DecodeDigits(line: string)
    requires |line| == 14 && AllDigits(line)
    ensures InRange(DigitsInput(line)) && EventLine(DigitsInput(line)) == line
    ensures Decode(line) == Event(DigitsInput(line))
  {
    DigitsEventLine(line);
    DecodeEventLine(DigitsInput(line));
  }

  /** Writing the event of fourteen digits back gives the digits. */
  lemma DigitsEventLine(line: string)
    requires |line| == 14 && AllDigits(line)
    ensures InRange(DigitsInput(line)) && EventLine(DigitsInput(line)) == line
  {
    assert IsDigit(line[12]) && IsDigit(line[13]);
    var y, mo, d := line[0..2], line[2..4], line[4..6];
    var h, mi, s := line[6..8], line[8..10], line[10..12];
    TwoDigitsOfValue(y);
    TwoDigitsOfValue(mo);
    TwoDigitsOfValue(d);
    TwoDigitsOfValue(h);
    TwoDigitsOfValue(mi);
    TwoDigitsOfValue(s);
    LineOfSlices(line);
  }

  /** A character that is no digit, no sign and no whitespace makes a 2-character `int()` fail. */
  lemma PyIntTwoCharsRejects(s: string, j: int)
    requires |s| == 2 && 0 <= j < 2
    requires !IsDigit(s[j]) && !IsSpace(s[j]) && s[j] != '+' && s[j] != '-'
    ensures PyInt(s) == None
  {
    var t := Strip(s);
    var lead := LeadingSpaces(s);
    StripInside(s);
    assert lead <= j < lead + |t|;
    assert t[j - lead] == s[j];
  }

  /** One unreadable two-character field spoils the whole decode. */
  lemma DecodeClockFieldFails(line: string, k: nat)
    requires |line| == 14 && k in {0, 2, 4, 6, 8, 10} && ClockField(line[k..k + 2]) == None
    ensures Decode(line) == Malformed
  {
  }

  /**
   * The decode raises `ValueError` (rather than answering no event) on a
   * 14-character line holding any character other than a digit, a sign
   * or whitespace.
   */
  lemma DecodeRejectsForeignChar(line: string, i: int)
    requires |line| == 14 && 0 <= i < 14
    requires !IsDigit(line[i]) && !IsSpace(line[i]) && line[i] != '+' && line[i] != '-'
    ensures Decode(line) == Malformed
  {
    if i < 12 {
      var k := if i % 2 == 0 then i else i - 1;
      assert line[k..k + 2][i - k] == line[i];
      PyIntTwoCharsRejects(line[k..k + 2], i - k);
      DecodeClockFieldFails(line, k);
    } else {
      DecodeSignalsMustBeDigits(line);
    }
  }

  /** The rotary and key positions must hold a digit; anything else raises. */
  lemma DecodeSignalsMustBeDigits(line: string)
    requires |line| == 14 && (!IsDigit(line[12]) || !IsDigit(line[13]))
    ensures Decode(line) == Malformed
  {
    assert line[12..13][0] == line[12] && line[13..14][0] == line[13];
  }

  /** Two-digit clock fields and one-digit signals: what one device line can carry. */
  predicate InRange(ev: Input) {
    0 <= ev.year < 100 && 0 <= ev.month < 100 && 0 <= ev.date < 100
    && 0 <= ev.hours < 100 && 0 <= ev.minutes < 100 && 0 <= ev.seconds < 100
    && 0 <= ev.rotary < 10 && 0 <= ev.key < 10
  }

  /** `YYMMDDhhmmssRK`, the fourteen characters `parse_time_input` expects. */
  function EventLine(ev: Input): (s: string)
    requires InRange(ev)
    ensures |s| == 14
  {
    TwoDigits(ev.year) + TwoDigits(ev.month) + TwoDigits(ev.date)
    + TwoDigits(ev.hours) + TwoDigits(ev.minutes) + TwoDigits(ev.seconds)
    + [DigitChar(ev.rotary), DigitChar(ev.key)]
  }

  /** Decoding an encoded event gives the event back. */
  lemma DecodeEventLine(ev: Input)
    requires InRange(ev)
    ensures Decode(EventLine(ev)) == Event(ev)
  {
    var y, mo, d := TwoDigits(ev.year), TwoDigits(ev.month), TwoDigits(ev.date);
    var h, mi, s := TwoDigits(ev.hours), TwoDigits(ev.minutes), TwoDigits(ev.seconds);
    var line := EventLine(ev);
    assert line == y + mo + d + h + mi + s + [DigitChar(ev.rotary), DigitChar(ev.key)];
    assert line[0..2] == y && line[2..4] == mo && line[4..6] == d;
    assert line[6..8] == h && line[8..10] == mi && line[10..12] == s;
    assert line[12..13] == [DigitChar(ev.rotary)] && line[13..14] == [DigitChar(ev.key)];
    PyIntTwoDigits(y);
    PyIntTwoDigits(mo);
    PyIntTwoDigits(d);
    PyIntTwoDigits(h);
    PyIntTwoDigits(mi);
    PyIntTwoDigits(s);
    DecodeFields(line, ev.year, ev.month, ev.date, ev.hours, ev.minutes, ev.seconds, ev.rotary, ev.key);
  }

  /** A line of fourteen ASCII digits is an event, and encoding that event gives the line back. */
  lemma EventLineOfDigits(line: string)
    requires |line| == 14 && AllDigits(line)
    ensures Decode(line).Event? && InRange(Decode(line).ev)
    ensures EventLine(Decode(line).ev) == line
  {
    DecodeDigits(line);
  }

  /** A fourteen-character line is its six pairs and two single characters. */
  lemma LineOfSlices(line: string)
    requires |line| == 14
    ensures line == line[0..2] + line[2..4] + line[4..6] + line[6..8] + line[8..10]
      + line[10..12] + [line[12], line[13]]
  {
  }

  /** Stripping an event line with its newline leaves the event line. */
  lemma StripEventLine(ev: Input)
    requires InRange(ev)
    ensures Strip(EventLine(ev) + "\n") == EventLine(ev)
  {
    var body := EventLine(ev);
    var line := body + "\n";
    assert IsDigit(body[0]) && IsDigit(body[13]);
    assert IsDigit(line[0]) && IsDigit(line[13]) && IsSpace(line[14]);
    assert SkipSpace(line, 0) == 0;
    assert BackSpace(line, 0, 15) == BackSpace(line, 0, 14) == 14;
    assert line[0..14] == body;
  }

  /**
   * `parse_time_input(time_to_str(t).strip() + R + K)` gives back the six
   * fields of `t` and the two signal digits.
   */
  lemma DecodeTimeToStr(t: DateTime, rotary: nat, key: nat)
    requires FieldsBelow100(t) && rotary < 10 && key < 10
    ensures Decode(Strip(TimeToStr(t)) + [DigitChar(rotary), DigitChar(key)])
         == Event(Input(t.year, t.month, t.date, t.hours, t.minutes, t.seconds, rotary, key))
  {
    TimeToStrLayout(t);
    TimeToStrStripped(t);
    var ev := Input(t.year, t.month, t.date, t.hours, t.minutes, t.seconds, rotary, key);
    assert Strip(TimeToStr(t)) + [DigitChar(rotary), DigitChar(key)] == EventLine(ev);
    DecodeEventLine(ev);
  }

  // ---------------------------------------------------------------- read_time_ipnut

  /** The text split at every line boundary (each boundary character ends one piece). */
  function Pieces(s: string): (ps: seq<string>)
    ensures |ps| >= 1
  {
    if s == [] then [""]
    else
      var rest := Pieces(s[1..]);
      if IsLineBreak(s[0]) then [""] + rest
      else [[s[0]] + rest[0]] + rest[1..]
  }

  /** The comprehension `[ln.strip() for ln in lines if ln.strip()]`. */
  function NonBlank(lines: seq<string>): (r: seq<string>)
    ensures |r| <= |lines|
  {
    if lines == [] then []
    else (if Strip(lines[0]) != [] then [Strip(lines[0])] else []) + NonBlank(lines[1..])
  }

  /**
   * `read_time_ipnut` on the text of one read: the last non-blank line,
   * stripped, or the empty string.
   */
  function ReadTimeInput(text: string): (r: string)
    ensures r == [] || (!IsSpace(r[0]) && !IsSpace(r[|r| - 1]))
  {
    var lines := NonBlank(SplitLines(text));
    if lines != [] then NonBlankStripped(SplitLines(text), |lines| - 1); LastOr(lines)
    else LastOr(lines)
  }

  /** The last element, or the empty string for no lines. */
  function LastOr(lines: seq<string>): string
  {
    if lines == [] then "" else lines[|lines| - 1]
  }

  /** Every kept line is non-empty and already stripped. */
  lemma {:induction false} NonBlankStripped(lines: seq<string>, i: nat)
    requires i < |NonBlank(lines)|
    ensures NonBlank(lines)[i] != []
    ensures var l := NonBlank(lines)[i]; !IsSpace(l[0]) && !IsSpace(l[|l| - 1])
  {
    if Strip(lines[0]) != [] && i == 0 {
    } else if Strip(lines[0]) != [] {
      NonBlankStripped(lines[1..], i - 1);
    } else {
      NonBlankStripped(lines[1..], i);
    }
  }

  lemma {:induction false} PiecesNoBreak(s: string)
    requires forall i :: 0 <= i < |s| ==> !IsLineBreak(s[i])
    ensures Pieces(s) == [s]
  {
    if s != [] {
      PiecesNoBreak(s[1..]);
      assert [s[0]] + s[1..] == s;
    }
  }

  lemma {:induction false} PiecesSplit(a: string, c: char, b: string)
    requires IsLineBreak(c)
    ensures Pieces(a + [c] + b) == Pieces(a) + Pieces(b)
  {
    var s := a + [c] + b;
    if a == [] {
      assert s[0] == c && s[1..] == b;
    } else {
      assert s[0] == a[0] && s[1..] == a[1..] + [c] + b;
      PiecesSplit(a[1..], c, b);
      if !IsLineBreak(a[0]) {
        ConsPiece([a[0]], Pieces(a[1..]), Pieces(b));
      }
    }
  }

  /** Extending the first piece commutes with appending more pieces. */
  lemma ConsPiece(p: string, rest: seq<string>, more: seq<string>)
    requires rest != []
    ensures [p + (rest + more)[0]] + (rest + more)[1..] == ([p + rest[0]] + rest[1..]) + more
  {
    assert (rest + more)[0] == rest[0];
    assert (rest + more)[1..] == rest[1..] + more;
  }

  lemma {:induction false} NonBlankAppend(x: seq<string>, y: seq<string>)
    ensures NonBlank(x + y) == NonBlank(x) + NonBlank(y)
  {
    if x != [] {
      assert (x + y)[1..] == x[1..] + y;
      NonBlankAppend(x[1..], y);
    } else {
      assert x + y == y;
    }
  }

  /** On text without line boundaries, the answer is the whole text stripped. */
  lemma ReadTimeInputOneLine(s: string)
    requires forall i :: 0 <= i < |s| ==> !IsLineBreak(s[i])
    ensures ReadTimeInput(s) == Strip(s)
  {
    SplitLinesNonBlank(s);
    PiecesNoBreak(s);
    assert [s][1..] == [];
  }

  /**
   * A later non-blank line wins: across a line boundary the answer is
   * the one from the part after it, unless that part is blank.
   */
  lemma ReadTimeInputLastWins(a: string, c: char, b: string)
    requires IsLineBreak(c)
    ensures ReadTimeInput(a + [c] + b)
         == if ReadTimeInput(b) != "" then ReadTimeInput(b) else ReadTimeInput(a)
  {
    var s := a + [c] + b;
    var x, y := NonBlank(Pieces(a)), NonBlank(Pieces(b));
    SplitLinesNonBlank(s);
    SplitLinesNonBlank(a);
    SplitLinesNonBlank(b);
    PiecesSplit(a, c, b);
    NonBlankAppend(Pieces(a), Pieces(b));
    assert NonBlank(Pieces(s)) == x + y;
    assert ReadTimeInput(s) == LastOr(x + y);
    assert ReadTimeInput(a) == LastOr(x);
    assert ReadTimeInput(b) == LastOr(y);
    if y != [] { NonBlankStripped(Pieces(b), |y| - 1); }
    LastOrAppend(x, y);
  }

  lemma LastOrAppend(x: seq<string>, y: seq<string>)
    requires y != [] ==> y[|y| - 1] != []
    ensures LastOr(x + y) == if LastOr(y) != "" then LastOr(y) else LastOr(x)
  {
    if y == [] { assert x + y == x; }
  }

  /** The index of the first line boundary at or after `i`, or `|s|`. */
  function FirstBreak(s: string, i: nat): (j: nat)
    requires i <= |s|
    ensures i <= j <= |s|
    ensures j < |s| ==> IsLineBreak(s[j])
    ensures forall k :: i <= k < j ==> !IsLineBreak(s[k])
    decreases |s| - i
  {
    if i == |s| || IsLineBreak(s[i]) then i else FirstBreak(s, i + 1)
  }

  /** Text without a line boundary. */
  predicate NoBreak(s: string) {
    forall k :: 0 <= k < |s| ==> !IsLineBreak(s[k])
  }

  /**
   * Python's `str.splitlines()`: the text cut at every line boundary, a
   * `\r\n` pair counting as one boundary; no line follows a final
   * boundary, and the empty text has no lines.
   */
  function SplitLines(s: string): (lines: seq<string>)
    ensures s == [] <==> lines == []
    ensures forall i :: 0 <= i < |lines| ==> NoBreak(lines[i])
    decreases |s|
  {
    if s == [] then []
    else
      var j := FirstBreak(s, 0);
      if j == |s| then [s]
      else
        var k := if s[j] == '\r' && j + 1 < |s| && s[j + 1] == '\n' then j + 2 else j + 1;
        assert NoBreak(s[..j]) by {
          forall i | 0 <= i < j ensures !IsLineBreak(s[..j][i]) {
            assert s[..j][i] == s[i];
          }
        }
        [s[..j]] + SplitLines(s[k..])
  }

  /** A `\r\n` pair ends one line, not two. */
  lemma SplitLinesCrLf(a: string, b: string)
    requires NoBreak(a)
    ensures SplitLines(a + "\r\n" + b) == [a] + SplitLines(b)
  {
    var s := a + "\r\n" + b;
    var j := FirstBreak(s, 0);
    assert s[|a|] == '\r' && IsLineBreak(s[|a|]);
    assert forall i :: 0 <= i < |a| ==> s[i] == a[i];
    assert j == |a|;
    assert s[j + 1] == '\n';
    assert s[..j] == a && s[j + 2..] == b;
  }

  /** The empty line is blank. */
  lemma NonBlankEmptyLine()
    ensures NonBlank([""]) == []
  {
    assert Strip("") == "";
    assert [""][1..] == [];
  }

  /** A line boundary at the front adds only an empty piece. */
  lemma LeadingBreakBlank(c: char, rest: string)
    requires IsLineBreak(c)
    ensures NonBlank(Pieces([c] + rest)) == NonBlank(Pieces(rest))
  {
    assert [c] + rest == [] + [c] + rest;
    PiecesSplit([], c, rest);
    NonBlankAppend([""], Pieces(rest));
    NonBlankEmptyLine();
  }

  /** The first line of `splitlines`, up to the first boundary, and what follows it. */
  lemma SplitLinesFirst(s: string, j: nat, k: nat)
    requires s != [] && j == FirstBreak(s, 0) < |s|
    requires k == if s[j] == '\r' && j + 1 < |s| && s[j + 1] == '\n' then j + 2 else j + 1
    ensures SplitLines(s) == [s[..j]] + SplitLines(s[k..])
    ensures NoBreak(s[..j])
  {
  }

  /** One step of the induction below: a first line, its boundary, and the rest. */
  lemma NonBlankFirstLine(a: string, c: char, b: string, rest: string, ls: seq<string>)
    requires NoBreak(a) && IsLineBreak(c) && (b == rest || b == ['\n'] + rest)
    requires NonBlank(ls) == NonBlank(Pieces(rest))
    ensures NonBlank([a]) + NonBlank(ls) == NonBlank(Pieces(a + [c] + b))
  {
    PiecesNoBreak(a);
    PiecesSplit(a, c, b);
    NonBlankAppend([a], Pieces(b));
    if b != rest {
      LeadingBreakBlank('\n', rest);
    }
  }

  /** The text around its `j`-th character, and what follows a one- or two-character boundary. */
  lemma SliceAround(s: string, j: nat, k: nat)
    requires j < |s| && (k == j + 1 || (k == j + 2 && j + 1 < |s| && s[j + 1] == '\n'))
    ensures s == s[..j] + [s[j]] + s[j + 1..]
    ensures s[j + 1..] == s[k..] || s[j + 1..] == ['\n'] + s[k..]
  {
    if k == j + 2 {
      assert s[j + 1..] == [s[j + 1]] + s[k..];
    }
  }

  /**
   * The boundary pieces and `splitlines` differ only in empty lines, so the
   * comprehension of line 116 keeps the same lines from both.
   */
  lemma {:induction false} SplitLinesNonBlank(s: string)
    ensures NonBlank(SplitLines(s)) == NonBlank(Pieces(s))
    decreases |s|
  {
    if s == [] {
      NonBlankEmptyLine();
    } else if FirstBreak(s, 0) == |s| {
      PiecesNoBreak(s);
    } else {
      var j := FirstBreak(s, 0);
      var k := if s[j] == '\r' && j + 1 < |s| && s[j + 1] == '\n' then j + 2 else j + 1;
      var a, b, rest := s[..j], s[j + 1..], s[k..];
      SplitLinesFirst(s, j, k);
      SplitLinesNonBlank(rest);
      NonBlankAppend([a], SplitLines(rest));
      SliceAround(s, j, k);
      NonBlankFirstLine(a, s[j], b, rest, SplitLines(rest));
    }
  }

  /** The read yields the empty string exactly when the text is empty or all whitespace. */
  lemma {:induction false} ReadTimeInputEmptyIff(s: string)
    ensures ReadTimeInput(s) == "" <==> AllSpace(s)
    decreases |s|
  {
    var j := FirstBreak(s, 0);
    if j == |s| {
      ReadTimeInputOneLine(s);
      StripEmptyIff(s);
    } else {
      var a, b := s[..j], s[j + 1..];
      assert s == a + [s[j]] + b;
      forall k | 0 <= k < |a| ensures !IsLineBreak(a[k]) {
        assert a[k] == s[k];
      }
      ReadTimeInputLastWins(a, s[j], b);
      ReadTimeInputOneLine(a);
      StripEmptyIff(a);
      ReadTimeInputEmptyIff(b);
      LineBreakIsSpace(s[j]);
      assert AllSpace(s) <==> AllSpace(a) && AllSpace(b) by {
        if AllSpace(a) && AllSpace(b) {
          forall k | 0 <= k < |s| ensures IsSpace(s[k]) {
            if k < j { assert s[k] == a[k]; }
            else if k > j { assert s[k] == b[k - j - 1]; }
          }
        }
        if AllSpace(s) {
          forall k | 0 <= k < |b| ensures IsSpace(b[k]) { assert b[k] == s[k + j + 1]; }
          forall k | 0 <= k < |a| ensures IsSpace(a[k]) { assert a[k] == s[k]; }
        }
      }
    }
  }
}
