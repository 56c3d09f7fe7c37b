/**
 * The two ends of the character device's ASCII protocol together: what
 * the UI controller writes sets the driver's clock, and the line the
 * driver produces is read back by the controller as one event.
 */
module Wire {
  import opened Wrappers
  import opened PyText
  import opened TimeCodec
  import opened Ds1302
  import opened CharDevice
  import opened UiController

  predicate IsAscii(s: string) {
    forall i :: 0 <= i < |s| ==> s[i] as int < 128
  }

  /** `str.encode("ascii")` on an ASCII string: one byte per character. */
  function Encode(s: string): (b: seq<Byte>)
    requires IsAscii(s)
    ensures |b| == |s|
    ensures forall i :: 0 <= i < |s| ==> b[i] == s[i] as int
  {
    seq(|s|, i requires 0 <= i < |s| => s[i] as int)
  }

  lemma DigitCharByte(n: nat)
    requires n < 10
    ensures IsDigitByte(DigitChar(n) as int)
    ensures DigitChar(n) as int - 0x30 == n
  {
  }

  /** The record's six fields, as the driver's bytes. */
  predicate SameClockAsDriver(t: DateTime, ds: DsTime) {
    ds.year == t.year && ds.month == t.month && ds.date == t.date
    && ds.hours == t.hours && ds.minutes == t.minutes && ds.seconds == t.seconds
  }

  /**
   * `write_time` then `my_custom_write`: the driver's record takes the six
   * two-digit fields of the controller's record, the day of the week is
   * kept, and the write reports all 13 bytes.
   */
  lemma WritePathSetsDriverClock(t: DateTime, d: DriverState, stale: seq<Byte>)
    requires TimeCodec.FieldsBelow100(t) && |stale| == 64
    ensures IsAscii(TimeToStr(t))
    ensures var o := OnWrite(d, Encode(TimeToStr(t)), stale);
      o.ret == 13 && SameClockAsDriver(t, o.state.ds) && o.state.ds.dayofweek == d.ds.dayofweek
      && o.sent == WriteDateTime(o.state.ds)
  {
    TimeToStrAscii(t);
    TimeToStrFields(t);
    var s := TimeToStr(t);
    var b := Encode(s);
    assert Copied(b) == b;
    assert WriteBuffer(b, stale)[..13] == b;
    BufferAgrees(b, WriteBuffer(b, stale), s);
    PairOfField(t.year, WriteBuffer(b, stale), 0, s);
    PairOfField(t.month, WriteBuffer(b, stale), 2, s);
    PairOfField(t.date, WriteBuffer(b, stale), 4, s);
    PairOfField(t.hours, WriteBuffer(b, stale), 6, s);
    PairOfField(t.minutes, WriteBuffer(b, stale), 8, s);
    PairOfField(t.seconds, WriteBuffer(b, stale), 10, s);
  }

  /** A buffer that starts with the encoded line holds its characters' codes. */
  lemma BufferAgrees(b: seq<Byte>, buf: seq<Byte>, s: string)
    requires |b| == |s| <= |buf| && buf[..|s|] == b
    requires forall i :: 0 <= i < |s| ==> b[i] == s[i] as int
    ensures forall i :: 0 <= i < |s| ==> buf[i] == s[i] as int
  {
    forall i | 0 <= i < |s| ensures buf[i] == s[i] as int {
      assert buf[..|s|][i] == buf[i];
    }
  }

  /** The line `write_time` sends is ASCII. */
  lemma TimeToStrAscii(t: DateTime)
    requires TimeCodec.FieldsBelow100(t)
    ensures IsAscii(TimeToStr(t)) && |TimeToStr(t)| == 13
  {
    TimeToStrLayout(t);
    var y, mo, d := TwoDigits(t.year), TwoDigits(t.month), TwoDigits(t.date);
    var h, mi, sec := TwoDigits(t.hours), TwoDigits(t.minutes), TwoDigits(t.seconds);
    AsciiAppend(y, mo);
    AsciiAppend(y + mo, d);
    AsciiAppend(y + mo + d, h);
    AsciiAppend(y + mo + d + h, mi);
    AsciiAppend(y + mo + d + h + mi, sec);
    AsciiAppend(y + mo + d + h + mi + sec, "\n");
  }

  lemma AsciiAppend(a: string, b: string)
    requires IsAscii(a) && IsAscii(b)
    ensures IsAscii(a + b)
  {
    forall i | 0 <= i < |a + b| ensures (a + b)[i] as int < 128 {
      if i < |a| {
        assert (a + b)[i] == a[i];
      } else {
        assert (a + b)[i] == b[i - |a|];
      }
    }
  }

  /** Where the six fields sit in the line `write_time` sends. */
  lemma TimeToStrFields(t: DateTime)
    requires TimeCodec.FieldsBelow100(t)
    ensures var s := TimeToStr(t);
      |s| == 13 && s[0..2] == TwoDigits(t.year) && s[2..4] == TwoDigits(t.month)
      && s[4..6] == TwoDigits(t.date) && s[6..8] == TwoDigits(t.hours)
      && s[8..10] == TwoDigits(t.minutes) && s[10..12] == TwoDigits(t.seconds)
  {
    TimeToStrLayout(t);
    var y, mo, d := TwoDigits(t.year), TwoDigits(t.month), TwoDigits(t.date);
    var h, mi, sec := TwoDigits(t.hours), TwoDigits(t.minutes), TwoDigits(t.seconds);
    var line := y + mo + d + h + mi + sec + "\n";
    assert TimeToStr(t) == line;
    assert line[0..2] == y && line[2..4] == mo && line[4..6] == d;
    assert line[6..8] == h && line[8..10] == mi && line[10..12] == sec;
  }

  /** The two bytes at `k` of an encoded line whose characters there are `TwoDigits(v)` parse to `v`. */
  lemma PairOfField(v: int, b: seq<Byte>, k: nat, s: string)
    requires 0 <= v < 100 && k + 2 <= |s| && |s| <= |b|
    requires s[k..k + 2] == TwoDigits(v)
    requires forall i :: 0 <= i < |s| ==> b[i] == s[i] as int
    ensures DigitPair(b[k], b[k + 1]) == v
  {
    assert s[k] == DigitChar(v / 10) && s[k + 1] == DigitChar(v % 10) by {
      assert s[k..k + 2][0] == s[k] && s[k..k + 2][1] == s[k + 1];
    }
    DigitCharByte(v / 10);
    DigitCharByte(v % 10);
    assert b[k] == DigitChar(v / 10) as int;
    assert b[k + 1] == DigitChar(v % 10) as int;
    DigitPairValue(b[k], b[k + 1]);
  }

  /** The event a driver line stands for. */
  function DriverInput(ds: DsTime, rotary: int, key: int): Input {
    Input(ds.year, ds.month, ds.date, ds.hours, ds.minutes, ds.seconds, rotary, key)
  }

  /** With two-digit fields and one-digit signals, the driver's line is the event line and a newline. */
  lemma ReadLineIsEventLine(ds: DsTime, rotary: int, key: int)
    requires CharDevice.FieldsBelow100(ds) && 0 <= rotary < 10 && 0 <= key < 10
    ensures InRange(DriverInput(ds, rotary, key))
    ensures ReadLine(ds, rotary, key) == EventLine(DriverInput(ds, rotary, key)) + "\n"
  {
    ReadLineLayout(ds, rotary, key);
  }

  /**
   * `my_custom_read` then `main`'s strip and `parse_time_input`: the line
   * is one event carrying the driver's clock and its two signals.
   */
  lemma ReadPathDecodes(ds: DsTime, rotary: int, key: int)
    requires CharDevice.FieldsBelow100(ds) && 0 <= rotary < 10 && 0 <= key < 10
    ensures Decode(Strip(ReadLine(ds, rotary, key)))
         == Event(Input(ds.year, ds.month, ds.date, ds.hours, ds.minutes, ds.seconds, rotary, key))
    ensures Classify(ReadLine(ds, rotary, key)) == Stepped
  {
    ReadLineIsEventLine(ds, rotary, key);
    StripEventLine(DriverInput(ds, rotary, key));
    DecodeEventLine(DriverInput(ds, rotary, key));
  }

  /**
   * The whole loop: a record written by OK and the next device line read
   * back give an event carrying the same six fields.
   */
  lemma WriteThenReadLine(t: DateTime, d: DriverState, stale: seq<Byte>, rotary: int, key: int)
    requires TimeCodec.FieldsBelow100(t) && |stale| == 64 && 0 <= rotary < 10 && 0 <= key < 10
    ensures IsAscii(TimeToStr(t))
    ensures var ds := OnWrite(d, Encode(TimeToStr(t)), stale).state.ds;
      Decode(Strip(ReadLine(ds, rotary, key)))
      == Event(Input(t.year, t.month, t.date, t.hours, t.minutes, t.seconds, rotary, key))
  {
    WritePathSetsDriverClock(t, d, stale);
    var ds := OnWrite(d, Encode(TimeToStr(t)), stale).state.ds;
    ReadPathDecodes(ds, rotary, key);
  }

  /** Under the driver's invariant the signals are single digits, so every line with two-digit fields is an event. */
  lemma DriverLinesAreEvents(d: DriverState)
    requires DriverInv(d) && CharDevice.FieldsBelow100(d.ds)
    ensures OnRead(d, false).result.Line?
    ensures Classify(OnRead(d, false).result.text) == Stepped
  {
    ReadPathDecodes(d.ds, d.rotary, d.key);
  }

  /**
   * A refresh from a chip that answers valid BCD to the seven read
   * commands leaves two-digit fields.
   */
  lemma TimerGivesTwoDigitFields(d: DriverState, chip: int -> Byte)
    requires forall i :: 0 <= i < 7 ==> IsBcd(chip(ReadCommand(ClockRegisters[i])))
    ensures CharDevice.FieldsBelow100(OnTimer(d, true, chip).ds)
  {
    var e := OnTimer(d, true, chip).ds;
    forall i | 0 <= i < 7 ensures RegisterField(e, i) < 100 {
      DecRoundTrip(chip(ReadCommand(ClockRegisters[i])));
    }
    assert RegisterField(e, 0) < 100 && RegisterField(e, 1) < 100 && RegisterField(e, 2) < 100;
    assert RegisterField(e, 3) < 100 && RegisterField(e, 4) < 100 && RegisterField(e, 6) < 100;
  }

  /**
   * `write_time` and then the timer: a chip that keeps what the driver
   * wrote gives the driver back the record it holds, day of week included.
   */
  lemma WriteThenTimer(t: DateTime, d: DriverState, stale: seq<Byte>, regs: Registers)
    requires TimeCodec.FieldsBelow100(t) && t.seconds < 80 && d.ds.dayofweek < 160 && |stale| == 64
    ensures IsAscii(TimeToStr(t))
    ensures var o := OnWrite(d, Encode(TimeToStr(t)), stale);
      OnTimer(o.state, true, Answer(Written(regs, o.sent))) == o.state
  {
    WritePathSetsDriverClock(t, d, stale);
    var o := OnWrite(d, Encode(TimeToStr(t)), stale);
    WriteThenRead(o.state.ds, o.state.ds, regs);
  }
}
