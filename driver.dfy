/**
 * The character device's state and its file operations: the rotary
 * encoder's interrupt handler with its debounce, `read` (the event line),
 * `write` (setting the clock), `poll`, and the periodic refresh of the
 * time from the chip. Kernel time is a jiffies count that does not wrap.
 */
module CharDevice {
  import opened PyText
  import opened Ds1302

  /** Which of the two registered interrupt lines fired. */
  datatype IrqSource = RotaryS1 | RotaryKey

  /** The driver's static variables. */
  datatype DriverState = DriverState(
    rotary: int,       // `rotary_value`: 0 none, 1 one direction, 2 the other
    key: int,          // `key_value`: 1 after a press
    flagS1: int,       // `data_update_finish_s1`
    flagKy: int,       // `data_update_finish_ky`
    lastIrq: nat,      // `last_interrupt_time`, in jiffies
    ds: DsTime)        // `ds_time`

  /** Static storage starts zeroed. */
  const ZeroTime := DsTime(0, 0, 0, 0, 0, 0, 0, 0, 0)
  const InitialDriver := DriverState(0, 0, 0, 0, 0, ZeroTime)

  /** The values the handlers can leave behind. */
  predicate DriverInv(d: DriverState) {
    0 <= d.rotary <= 2 && 0 <= d.key <= 1 && 0 <= d.flagS1 <= 1 && 0 <= d.flagKy <= 1
  }

  lemma InitialDriverInv()
    ensures DriverInv(InitialDriver) && !Readable(InitialDriver)
  {
  }

  // ---------------------------------------------------------------- interrupt

  /**
   * `my_custom_int_handler` at jiffies `now`, with the levels of the S1,
   * S2 and key pins. `debounce` is `msecs_to_jiffies(DEBOUNCE_MS)`.
   */
  function OnInterrupt(d: DriverState, debounce: nat, src: IrqSource, now: nat,
                       s1: int, s2: int, ky: int): DriverState {
    if now < d.lastIrq + debounce then d
    else
      var e := d.(lastIrq := now);
      match src
      case RotaryS1 =>
        e.(rotary := if s1 == 0 then (if s2 == 0 then 2 else 1) else e.rotary, flagS1 := 1)
      case RotaryKey =>
        e.(key := if ky == 0 then 1 else e.key, flagKy := 1)
  }

  /** An interrupt inside the debounce window changes nothing, not even the window's start. */
  lemma InterruptDebounced(d: DriverState, debounce: nat, src: IrqSource, now: nat,
                           s1: int, s2: int, ky: int)
    ensures now < d.lastIrq + debounce ==> OnInterrupt(d, debounce, src, now, s1, s2, ky) == d
    ensures now >= d.lastIrq + debounce ==>
      OnInterrupt(d, debounce, src, now, s1, s2, ky).lastIrq == now
      && Readable(OnInterrupt(d, debounce, src, now, s1, s2, ky))
  {
  }

  /**
   * An accepted S1 edge: S1 low decodes the direction from S2 (low gives
   * 2, high 1); S1 high keeps the old value. The flag is raised either way
   * and nothing of the key side moves.
   */
  lemma InterruptRotary(d: DriverState, debounce: nat, now: nat, s1: int, s2: int, ky: int)
    requires now >= d.lastIrq + debounce
    ensures var e := OnInterrupt(d, debounce, RotaryS1, now, s1, s2, ky);
      e.flagS1 == 1 && e.key == d.key && e.flagKy == d.flagKy && e.ds == d.ds
      && (s1 == 0 && s2 == 0 ==> e.rotary == 2)
      && (s1 == 0 && s2 != 0 ==> e.rotary == 1)
      && (s1 != 0 ==> e.rotary == d.rotary)
  {
  }

  /** An accepted key edge: a low key pin records a press; the flag is raised either way. */
  lemma InterruptKey(d: DriverState, debounce: nat, now: nat, s1: int, s2: int, ky: int)
    requires now >= d.lastIrq + debounce
    ensures var e := OnInterrupt(d, debounce, RotaryKey, now, s1, s2, ky);
      e.flagKy == 1 && e.rotary == d.rotary && e.flagS1 == d.flagS1 && e.ds == d.ds
      && e.key == (if ky == 0 then 1 else d.key)
  {
  }

  /** The two lines share one debounce window: a key press right after a rotary edge is lost. */
  lemma DebounceShared(d: DriverState, debounce: nat, t1: nat, t2: nat, s1: int, s2: int, ky: int)
    requires t1 >= d.lastIrq + debounce && t1 <= t2 < t1 + debounce && d.key == 0
    ensures OnInterrupt(OnInterrupt(d, debounce, RotaryS1, t1, s1, s2, ky),
                        debounce, RotaryKey, t2, s1, s2, 0).key == 0
  {
  }

  lemma InterruptKeepsInv(d: DriverState, debounce: nat, src: IrqSource, now: nat,
                          s1: int, s2: int, ky: int)
    requires DriverInv(d)
    ensures DriverInv(OnInterrupt(d, debounce, src, now, s1, s2, ky))
  {
  }

  // ---------------------------------------------------------------- read

  /** `%02d%02d%02d%02d%02d%02d%01d%01d\n` of the time fields and the two signals. */
  function ReadLine(ds: DsTime, rotary: int, key: int): string {
    Pad2(ds.year) + Pad2(ds.month) + Pad2(ds.date)
    + Pad2(ds.hours) + Pad2(ds.minutes) + Pad2(ds.seconds)
    + Pad1(rotary) + Pad1(key) + "\n"
  }

  predicate FieldsBelow100(ds: DsTime) {
    ds.year < 100 && ds.month < 100 && ds.date < 100
    && ds.hours < 100 && ds.minutes < 100 && ds.seconds < 100
  }

  /** With two-digit fields and one-digit signals the line is the 14-digit event and a newline. */
  lemma ReadLineLayout(ds: DsTime, rotary: int, key: int)
    requires FieldsBelow100(ds) && 0 <= rotary < 10 && 0 <= key < 10
    ensures ReadLine(ds, rotary, key)
         == TwoDigits(ds.year) + TwoDigits(ds.month) + TwoDigits(ds.date)
          + TwoDigits(ds.hours) + TwoDigits(ds.minutes) + TwoDigits(ds.seconds)
          + [DigitChar(rotary), DigitChar(key)] + "\n"
    ensures |ReadLine(ds, rotary, key)| == 15
  {
    Pad2TwoDigits(ds.year);
    Pad2TwoDigits(ds.month);
    Pad2TwoDigits(ds.date);
    Pad2TwoDigits(ds.hours);
    Pad2TwoDigits(ds.minutes);
    Pad2TwoDigits(ds.seconds);
    Pad1Digit(rotary);
    Pad1Digit(key);
  }

  /** Every field fits three characters, so the line never fills the 64-byte buffer. */
  lemma ReadLineFits(ds: DsTime, rotary: int, key: int)
    requires 0 <= rotary < 10 && 0 <= key < 10
    ensures 15 <= |ReadLine(ds, rotary, key)| <= 21 < 64
  {
    Pad2Length(ds.year);
    Pad2Length(ds.month);
    Pad2Length(ds.date);
    Pad2Length(ds.hours);
    Pad2Length(ds.minutes);
    Pad2Length(ds.seconds);
    Pad1Digit(rotary);
    Pad1Digit(key);
  }

  lemma Pad2Length(v: int)
    requires 0 <= v < 256
    ensures 2 <= |Pad2(v)| <= 3
  {
    DecimalLength(v);
  }

  /** What `read` hands back: the line, or `-EFAULT` when the copy to the caller fails. */
  datatype ReadResult = Line(text: string) | Efault

  datatype ReadOutcome = ReadOutcome(state: DriverState, result: ReadResult)

  /**
   * `my_custom_read`: both flags are cleared first; the signals are
   * consumed only when the line reaches the caller.
   */
  function OnRead(d: DriverState, copyFails: bool): ReadOutcome {
    var cleared := d.(flagS1 := 0, flagKy := 0);
    if copyFails then ReadOutcome(cleared, Efault)
    else ReadOutcome(cleared.(rotary := 0, key := 0), Line(ReadLine(d.ds, d.rotary, d.key)))
  }

  /**
   * A read reports the signals once: afterwards nothing is readable, and
   * a successful read leaves no rotary or key value for the next read.
   */
  lemma ReadConsumes(d: DriverState, copyFails: bool)
    ensures !Readable(OnRead(d, copyFails).state)
    ensures OnRead(d, copyFails).state.ds == d.ds && OnRead(d, copyFails).state.lastIrq == d.lastIrq
    ensures copyFails <==> OnRead(d, copyFails).result == Efault
    ensures !copyFails ==> OnRead(d, false).state.rotary == 0 && OnRead(d, false).state.key == 0
    ensures copyFails ==> OnRead(d, true).state.rotary == d.rotary && OnRead(d, true).state.key == d.key
  {
  }

  /** A second read without an interrupt in between reports the same clock and no signals. */
  lemma ReadTwice(d: DriverState)
    ensures OnRead(OnRead(d, false).state, false).result == Line(ReadLine(d.ds, 0, 0))
  {
  }

  lemma ReadKeepsInv(d: DriverState, copyFails: bool)
    requires DriverInv(d)
    ensures DriverInv(OnRead(d, copyFails).state)
  {
  }

  // ---------------------------------------------------------------- write

  /**
   * `(hi - '0') * 10 + (lo - '0')` stored into a `uint8_t` field. A byte
   * of 128 or more is a negative `char`, which changes the sum by a
   * multiple of 256 and so not the stored value.
   */
  function DigitPair(hi: Byte, lo: Byte): Byte {
    U8((hi - 0x30) * 10 + (lo - 0x30))
  }

  /** ASCII digit bytes. */
  predicate IsDigitByte(b: Byte) {
    0x30 <= b <= 0x39
  }

  /** Two ASCII digits give their two-digit value; the result is always below 100. */
  lemma DigitPairValue(hi: Byte, lo: Byte)
    requires IsDigitByte(hi) && IsDigitByte(lo)
    ensures DigitPair(hi, lo) == (hi - 0x30) * 10 + (lo - 0x30)
    ensures DigitPair(hi, lo) < 100
  {
  }

  /** The bytes the driver copies of a write: at most 63 of them. */
  function Copied(data: seq<Byte>): (buf: seq<Byte>)
    ensures |buf| == if |data| < 63 then |data| else 63
    ensures buf == data[..|buf|]
  {
    if |data| < 63 then data else data[..63]
  }

  /**
   * The 64-byte stack buffer after the copy: the copied bytes, the
   * terminating zero, and beyond it whatever `stale` held before.
   */
  function WriteBuffer(data: seq<Byte>, stale: seq<Byte>): (buf: seq<Byte>)
    requires |stale| == 64
    ensures |buf| == 64
    ensures buf[..|Copied(data)|] == Copied(data) && buf[|Copied(data)|] == 0
    ensures buf[|Copied(data)| + 1..] == stale[|Copied(data)| + 1..]
  {
    var c := Copied(data);
    c + [0] + stale[|c| + 1..]
  }

  /**
   * The record after `my_custom_write`: bytes 0 to 11 of the buffer as six
   * digit pairs, year first; the other fields stay. A write shorter than
   * twelve bytes parses the terminating zero and stale bytes.
   */
  function ParseWrite(prev: DsTime, data: seq<Byte>, stale: seq<Byte>): (ds: DsTime)
    requires |stale| == 64
    ensures ds.dayofweek == prev.dayofweek && ds.ampm == prev.ampm && ds.hourmode == prev.hourmode
  {
    var buf := WriteBuffer(data, stale);
    prev.(year := DigitPair(buf[0], buf[1]), month := DigitPair(buf[2], buf[3]),
          date := DigitPair(buf[4], buf[5]), hours := DigitPair(buf[6], buf[7]),
          minutes := DigitPair(buf[8], buf[9]), seconds := DigitPair(buf[10], buf[11]))
  }

  /** From twelve bytes on, only the first twelve matter, and the stale bytes do not. */
  lemma ParseWritePrefix(prev: DsTime, data: seq<Byte>, more: seq<Byte>, stale: seq<Byte>, stale2: seq<Byte>)
    requires |data| >= 12 && |stale| == 64 && |stale2| == 64
    ensures ParseWrite(prev, data + more, stale) == ParseWrite(prev, data[..12], stale2)
  {
    var b1, b2 := WriteBuffer(data + more, stale), WriteBuffer(data[..12], stale2);
    assert b1[..12] == (data + more)[..12] == data[..12] == b2[..12] by {
      assert b1[..12] == b1[..|Copied(data + more)|][..12];
      assert b2[..12] == b2[..|Copied(data[..12])|][..12];
    }
    assert b1[0] == b2[0] && b1[1] == b2[1] && b1[2] == b2[2] && b1[3] == b2[3];
    assert b1[4] == b2[4] && b1[5] == b2[5] && b1[6] == b2[6] && b1[7] == b2[7];
    assert b1[8] == b2[8] && b1[9] == b2[9] && b1[10] == b2[10] && b1[11] == b2[11];
  }

  /**
   * An empty write parses the terminating zero and a stale byte as the
   * year, and stale bytes alone as the other fields.
   */
  lemma EmptyWriteUsesStale(prev: DsTime, stale: seq<Byte>)
    requires |stale| == 64
    ensures ParseWrite(prev, [], stale).year == DigitPair(0, stale[1])
    ensures ParseWrite(prev, [], stale).seconds == DigitPair(stale[10], stale[11])
  {
  }

  datatype WriteOutcome = WriteOutcome(state: DriverState, sent: seq<Command>, ret: int)

  /**
   * `my_custom_write`: parse, send the record to the chip, return the
   * caller's byte count (even though at most 63 bytes were copied).
   */
  function OnWrite(d: DriverState, data: seq<Byte>, stale: seq<Byte>): (o: WriteOutcome)
    requires |stale| == 64
    ensures o.ret == |data|
    ensures o.state == d.(ds := ParseWrite(d.ds, data, stale))
    ensures o.sent == WriteDateTime(o.state.ds)
  {
    var ds := ParseWrite(d.ds, data, stale);
    WriteOutcome(d.(ds := ds), WriteDateTime(ds), |data|)
  }

  // ---------------------------------------------------------------- timer and poll

  /**
   * `ds1302_timer_fn`: the record is refreshed from the chip when the
   * mutex is free; `chip` is the byte the chip answers to each read command.
   */
  function OnTimer(d: DriverState, acquired: bool, chip: int -> Byte): (e: DriverState)
    ensures e.rotary == d.rotary && e.key == d.key && e.flagS1 == d.flagS1
    ensures e.flagKy == d.flagKy && e.lastIrq == d.lastIrq
    ensures !acquired ==> e == d
  {
    if acquired then d.(ds := ReadDateTime(d.ds, chip)) else d
  }

  /** `my_custom_poll` reports input exactly while one of the two flags is set. */
  predicate Readable(d: DriverState) {
    d.flagS1 != 0 || d.flagKy != 0
  }

  /** `POLLIN | POLLRDNORM`. */
  const PollIn: bv32 := 0x41

  // ---------------------------------------------------------------- the driver object

  /** The driver's static variables and what it has sent to the chip. */
  class Driver {
    var rotary: int
    var key: int
    var flagS1: int
    var flagKy: int
    var lastIrq: nat
    var ds: DsTime
    /** The `ds1302_write` calls made so far, oldest first. */
    var sent: seq<Command>
    /** The read commands sent to the chip so far, oldest first. */
    var queried: seq<int>
    /** `msecs_to_jiffies(DEBOUNCE_MS)`, which depends on the kernel's tick rate. */
    const debounce: nat

    function Current(): DriverState
      reads this
    {
      DriverState(rotary, key, flagS1, flagKy, lastIrq, ds)
    }

    predicate Valid()
      reads this
    {
      DriverInv(Current())
    }

    constructor (debounceJiffies: nat)
      ensures Current() == InitialDriver && sent == [] && queried == [] && debounce == debounceJiffies
      ensures Valid()
    {
      rotary := 0;
      key := 0;
      flagS1 := 0;
      flagKy := 0;
      lastIrq := 0;
      ds := ZeroTime;
      sent := [];
      queried := [];
      debounce := debounceJiffies;
    }

    method Interrupt(src: IrqSource, now: nat, s1: int, s2: int, ky: int)
      modifies this
      ensures Current() == OnInterrupt(old(Current()), debounce, src, now, s1, s2, ky)
      ensures sent == old(sent) && queried == old(queried)
      ensures old(Valid()) ==> Valid()
    {
      if now < lastIrq + debounce {
        return;
      }
      lastIrq := now;
      if src == RotaryS1 {
        if s1 == 0 {
          if s2 == 0 {
            rotary := 2;
          } else {
            rotary := 1;
          }
        }
        flagS1 := 1;
      } else {
        if ky == 0 {
          key := 1;
        }
        flagKy := 1;
      }
    }

    method Read(copyFails: bool) returns (r: ReadResult)
      modifies this
      ensures Current() == OnRead(old(Current()), copyFails).state
      ensures r == OnRead(old(Current()), copyFails).result
      ensures sent == old(sent) && queried == old(queried)
      ensures old(Valid()) ==> Valid()
    {
      flagS1 := 0;
      flagKy := 0;
      var line := ReadLine(ds, rotary, key);
      if copyFails {
        return Efault;
      }
      rotary := 0;
      key := 0;
      r := Line(line);
    }

    /** `stale` is what the stack buffer held before the copy. */
    method Write(data: seq<Byte>, stale: seq<Byte>) returns (n: int)
      requires |stale| == 64
      modifies this
      ensures Current() == OnWrite(old(Current()), data, stale).state
      ensures sent == old(sent) + OnWrite(old(Current()), data, stale).sent
      ensures queried == old(queried)
      ensures n == |data|
      ensures old(Valid()) ==> Valid()
    {
      var len := if |data| < 63 then |data| else 63;
      var buffer := data[..len] + [0] + stale[len + 1..];
      ds := ds.(year := DigitPair(buffer[0], buffer[1]));
      ds := ds.(month := DigitPair(buffer[2], buffer[3]));
      ds := ds.(date := DigitPair(buffer[4], buffer[5]));
      ds := ds.(hours := DigitPair(buffer[6], buffer[7]));
      ds := ds.(minutes := DigitPair(buffer[8], buffer[9]));
      ds := ds.(seconds := DigitPair(buffer[10], buffer[11]));
      sent := sent + WriteDateTime(ds);
      n := |data|;
    }

    /** The periodic refresh; with the mutex taken it sends the seven read commands. */
    method Timer(acquired: bool, chip: int -> Byte)
      modifies this
      ensures Current() == OnTimer(old(Current()), acquired, chip)
      ensures sent == old(sent)
      ensures queried == old(queried) + (if acquired then DateTimeReads() else [])
      ensures old(Valid()) ==> Valid()
    {
      if acquired {
        ds := ReadDateTime(ds, chip);
        queried := queried + DateTimeReads();
      }
    }

    method Poll() returns (mask: bv32)
      ensures mask == if Readable(Current()) then PollIn else 0
    {
      mask := 0;
      if flagS1 != 0 || flagKy != 0 {
        mask := mask | PollIn;
      }
    }
  }
}
