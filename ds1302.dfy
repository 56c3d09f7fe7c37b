/**
 * The kernel driver's side of the DS1302 real-time clock: BCD
 * conversion, the three-wire LSB-first bit transfer (as sequences of
 * data-pin levels rather than GPIO calls), the register addresses and
 * the mapping between the driver's `t_ds1302` record and the chip's
 * registers. C computes on `uint8_t` values in `int` and truncates on
 * every store; `Byte` and `U8` say so. The bit transfer works on `bv8`.
 */
module Ds1302 {

  /** A `uint8_t` value. */
  type Byte = x: int | 0 <= x < 256

  /** Storing an `int` into a `uint8_t`: modulo 256. */
  function U8(x: int): Byte {
    x % 256
  }

  /** The driver's `t_ds1302` record. */
  datatype DsTime = DsTime(
    seconds: Byte, minutes: Byte, hours: Byte, date: Byte, month: Byte,
    dayofweek: Byte, year: Byte, ampm: Byte, hourmode: Byte)

  // ---------------------------------------------------------------- BCD

  /** `convert_dec_to_bcd`: tens times 16 plus units, cut to 8 bits on return. */
  function DecToBcd(x: Byte): Byte {
    U8((x / 10) * 16 + x % 10)
  }

  /** `convert_bcd_to_dec`: `_in >> 4` is the high nibble, `_in & 0x0f` the low one. */
  function BcdToDec(b: Byte): (x: Byte)
    ensures x < 166
  {
    (b / 16) * 10 + b % 16
  }

  /** A byte whose two nibbles are decimal digits. */
  predicate IsBcd(b: Byte) {
    b / 16 <= 9 && b % 16 <= 9
  }

  /** For 0..99 the high nibble holds the tens and the low nibble the units. */
  lemma DecToBcdNibbles(x: Byte)
    requires x < 100
    ensures DecToBcd(x) / 16 == x / 10 && DecToBcd(x) % 16 == x % 10
    ensures IsBcd(DecToBcd(x))
  {
    var q, r := x / 10, x % 10;
    assert (q * 16 + r) % 256 == q * 16 + r;
    assert (q * 16 + r) / 16 == q && (q * 16 + r) % 16 == r;
  }

  /** Decimal to BCD and back is the identity exactly below 160, where the tens still fit a nibble. */
  lemma BcdRoundTrip(x: Byte)
    ensures BcdToDec(DecToBcd(x)) == x <==> x < 160
  {
    var q, r := x / 10, x % 10;
    assert x == 10 * q + r && 0 <= r < 10 && q <= 25;
    if x < 160 {
      assert q < 16;
      assert (q * 16 + r) % 256 == q * 16 + r;
      assert (q * 16 + r) / 16 == q && (q * 16 + r) % 16 == r;
    } else {
      assert 16 <= q;
      assert (q * 16 + r) % 256 == (q - 16) * 16 + r;
      assert ((q - 16) * 16 + r) / 16 == q - 16 && ((q - 16) * 16 + r) % 16 == r;
      assert BcdToDec(DecToBcd(x)) == x - 160;
    }
  }

  /** BCD to decimal and back is the identity on every valid BCD byte. */
  lemma DecRoundTrip(b: Byte)
    requires IsBcd(b)
    ensures BcdToDec(b) < 100 && DecToBcd(BcdToDec(b)) == b
  {
    var h, l := b / 16, b % 16;
    var x := h * 10 + l;
    assert x / 10 == h && x % 10 == l;
    assert (h * 16 + l) % 256 == h * 16 + l == b;
  }

  // ---------------------------------------------------------------- bit transfer

  /** Bit `i` of a byte, `b & (1 << i)`. */
  predicate Bit(b: bv8, i: nat)
    requires i < 8
  {
    b & (1 << i) != 0
  }

  /** A byte is fixed by its eight bits. */
  lemma BitsDetermine(a: bv8, b: bv8)
    requires forall i :: 0 <= i < 8 ==> Bit(a, i) == Bit(b, i)
    ensures a == b
  {
    assert Bit(a, 0) == Bit(b, 0) && Bit(a, 1) == Bit(b, 1);
    assert Bit(a, 2) == Bit(b, 2) && Bit(a, 3) == Bit(b, 3);
    assert Bit(a, 4) == Bit(b, 4) && Bit(a, 5) == Bit(b, 5);
    assert Bit(a, 6) == Bit(b, 6) && Bit(a, 7) == Bit(b, 7);
  }

  /** The data-pin levels a byte is sent as, least significant bit first. */
  function TxBits(b: bv8): (bits: seq<bool>)
    ensures |bits| == 8
    ensures forall i :: 0 <= i < 8 ==> bits[i] == Bit(b, i)
  {
    [Bit(b, 0), Bit(b, 1), Bit(b, 2), Bit(b, 3), Bit(b, 4), Bit(b, 5), Bit(b, 6), Bit(b, 7)]
  }

  function BitValue(on: bool, i: nat): bv8
    requires i < 8
  {
    if on then 1 << i else 0
  }

  /** The byte whose bit `i` is the `i`-th sampled level. */
  function Pack(samples: seq<bool>): (b: bv8)
    requires |samples| == 8
    ensures forall i :: 0 <= i < 8 ==> Bit(b, i) == samples[i]
  {
    BitValue(samples[0], 0) | BitValue(samples[1], 1) | BitValue(samples[2], 2)
    | BitValue(samples[3], 3) | BitValue(samples[4], 4) | BitValue(samples[5], 5)
    | BitValue(samples[6], 6) | BitValue(samples[7], 7)
  }

  /** Receiving what was sent gives the byte back, and sending what was received the levels. */
  lemma PackTxBits(b: bv8, samples: seq<bool>)
    requires |samples| == 8
    ensures Pack(TxBits(b)) == b
    ensures TxBits(Pack(samples)) == samples
  {
    BitsDetermine(Pack(TxBits(b)), b);
  }

  lemma BitOr(r: bv8, i: nat, j: nat)
    requires i < 8 && j < 8
    ensures Bit(r | (1 << i), j) == (Bit(r, j) || j == i)
  {
  }

  /**
   * `ds1302_tx`: the level driven before each of the eight clock pulses,
   * and the number of pulses.
   */
  method Tx(b: bv8) returns (line: seq<bool>, clocks: nat)
    ensures line == TxBits(b) && clocks == 8
  {
    line := [];
    clocks := 0;
    for i := 0 to 8
      invariant |line| == i && clocks == i
      invariant forall j :: 0 <= j < i ==> line[j] == Bit(b, j)
    {
      if b & (1 << i) != 0 {
        line := line + [true];
      } else {
        line := line + [false];
      }
      clocks := clocks + 1;
    }
    assert line == TxBits(b);
  }

  /**
   * `ds1302_rx`: bit `i` of the result is the `i`-th sampled level; the
   * pin is clocked after every sample but the last, seven times.
   */
  method Rx(samples: seq<bool>) returns (r: bv8, clocks: nat)
    requires |samples| == 8
    ensures r == Pack(samples) && clocks == 7
  {
    r := 0;
    clocks := 0;
    for i := 0 to 8
      invariant forall j :: 0 <= j < i ==> Bit(r, j) == samples[j]
      invariant forall j :: i <= j < 8 ==> !Bit(r, j)
      invariant clocks == if i < 8 then i else 7
    {
      if samples[i] {
        var before := r;
        r := before | (1 << i);
        forall j | 0 <= j < 8 ensures Bit(r, j) == (Bit(before, j) || j == i) {
          BitOr(before, i, j);
        }
      }
      if i < 7 {
        clocks := clocks + 1;
      }
    }
    BitsDetermine(r, Pack(samples));
  }

  /** `ds1302_write`: command then data, sixteen clock pulses under one chip enable. */
  method WriteRegister(command: bv8, data: bv8) returns (line: seq<bool>, clocks: nat)
    ensures line == TxBits(command) + TxBits(data) && clocks == 16
  {
    var first, c1 := Tx(command);
    var second, c2 := Tx(data);
    line := first + second;
    clocks := c1 + c2;
  }

  /**
   * `ds1302_read`: the command goes out, eight levels are sampled, and
   * the byte they form is read as BCD; fifteen pulses in all.
   */
  method ReadRegister(command: bv8, samples: seq<bool>) returns (value: Byte, line: seq<bool>, clocks: nat)
    requires |samples| == 8
    ensures line == TxBits(command) && value == BcdToDec(Pack(samples) as int) && clocks == 15
  {
    var c1, c2;
    line, c1 := Tx(command);
    var raw;
    raw, c2 := Rx(samples);
    value := BcdToDec(raw as int);
    clocks := c1 + c2;
  }

  // ---------------------------------------------------------------- registers

  const AddrSeconds: Byte := 0x80
  const AddrMinutes: Byte := 0x82
  const AddrHours: Byte := 0x84
  const AddrDate: Byte := 0x86
  const AddrMonth: Byte := 0x88
  const AddrDayOfWeek: Byte := 0x8A
  const AddrYear: Byte := 0x8C
  const AddrWriteProtected: Byte := 0x8E

  /** The write commands of the seven time registers, in the order the driver sends them. */
  const ClockRegisters: seq<Byte> :=
    [AddrSeconds, AddrMinutes, AddrHours, AddrDate, AddrMonth, AddrDayOfWeek, AddrYear]

  /** A register is read with its write command plus one. */
  function ReadCommand(addr: Byte): int {
    addr + 1
  }

  /**
   * The write commands are distinct even bytes from 0x80 on; each read
   * command is the same byte with bit 0 set, so it is never a write
   * command.
   */
  lemma RegisterMap(i: nat, j: nat)
    requires i < 7 && j < 7
    ensures ClockRegisters[i] == 0x80 + 2 * i
    ensures ClockRegisters[i] % 2 == 0 && ReadCommand(ClockRegisters[i]) % 2 == 1
    ensures ReadCommand(ClockRegisters[i]) - 1 == ClockRegisters[i] && ReadCommand(ClockRegisters[i]) < 256
    ensures ReadCommand(ClockRegisters[i]) != ClockRegisters[j] && ReadCommand(ClockRegisters[i]) != AddrWriteProtected
    ensures i != j ==> ClockRegisters[i] != ClockRegisters[j]
  {
  }

  /** One `ds1302_write` call: a command byte and a data byte. */
  datatype Command = Command(addr: Byte, data: Byte)

  /**
   * `ds1302_write_datetime`: the record's seven time fields as BCD, the
   * clock-halt bit 7 of the seconds cleared (`& 0x7f`).
   */
  function WriteDateTime(ds: DsTime): (cmds: seq<Command>)
    ensures |cmds| == 7
    ensures forall i :: 0 <= i < 7 ==> cmds[i].addr == ClockRegisters[i]
    ensures cmds[0].data == DecToBcd(ds.seconds) % 128
    ensures forall i :: 1 <= i < 7 ==> cmds[i].data == DecToBcd(RegisterField(ds, i))
  {
    [Command(AddrSeconds, DecToBcd(ds.seconds) % 128),
     Command(AddrMinutes, DecToBcd(ds.minutes)),
     Command(AddrHours, DecToBcd(ds.hours)),
     Command(AddrDate, DecToBcd(ds.date)),
     Command(AddrMonth, DecToBcd(ds.month)),
     Command(AddrDayOfWeek, DecToBcd(ds.dayofweek)),
     Command(AddrYear, DecToBcd(ds.year))]
  }

  /** Seconds below 80 lose nothing to the mask; from 80 to 99, eighty is lost. */
  lemma SecondsMask(s: Byte)
    requires s < 100
    ensures s < 80 ==> DecToBcd(s) % 128 == DecToBcd(s)
    ensures s >= 80 ==> BcdToDec(DecToBcd(s) % 128) == s - 80
  {
    DecToBcdNibbles(s);
    var b := DecToBcd(s);
    assert b == 16 * (s / 10) + s % 10;
    if s >= 80 {
      assert b % 128 == 16 * (s / 10 - 8) + s % 10;
      assert (16 * (s / 10 - 8) + s % 10) / 16 == s / 10 - 8;
      assert (16 * (s / 10 - 8) + s % 10) % 16 == s % 10;
    }
  }

  /** The record field held by the `i`-th clock register, in the order of `ClockRegisters`. */
  function RegisterField(ds: DsTime, i: nat): Byte
    requires i < 7
  {
    [ds.seconds, ds.minutes, ds.hours, ds.date, ds.month, ds.dayofweek, ds.year][i]
  }

  /** The read commands `ds1302_read_datetime` sends, in order. */
  function DateTimeReads(): (cmds: seq<int>)
    ensures |cmds| == 7
    ensures forall i :: 0 <= i < 7 ==> cmds[i] == ReadCommand(ClockRegisters[i])
  {
    [AddrSeconds + 1, AddrMinutes + 1, AddrHours + 1, AddrDate + 1,
     AddrMonth + 1, AddrDayOfWeek + 1, AddrYear + 1]
  }

  /**
   * `ds1302_read_datetime`: each time register is read with its write
   * command plus one and decoded from BCD. `chip` gives the byte the chip
   * answers to a read command. AM/PM and hour mode are not read.
   */
  function ReadDateTime(prev: DsTime, chip: int -> Byte): (ds: DsTime)
    ensures forall i :: 0 <= i < 7 ==>
      RegisterField(ds, i) == BcdToDec(chip(ReadCommand(ClockRegisters[i])))
    ensures ds.ampm == prev.ampm && ds.hourmode == prev.hourmode
    ensures ds.seconds < 166 && ds.minutes < 166 && ds.hours < 166 && ds.date < 166
    ensures ds.month < 166 && ds.dayofweek < 166 && ds.year < 166
  {
    prev.(seconds := BcdToDec(chip(AddrSeconds + 1)), minutes := BcdToDec(chip(AddrMinutes + 1)),
          hours := BcdToDec(chip(AddrHours + 1)), date := BcdToDec(chip(AddrDate + 1)),
          month := BcdToDec(chip(AddrMonth + 1)), dayofweek := BcdToDec(chip(AddrDayOfWeek + 1)),
          year := BcdToDec(chip(AddrYear + 1)))
  }

  // ---------------------------------------------------------------- the chip

  /** The chip's register file: the byte held at each write address. */
  type Registers = int -> Byte

  /** One write command stores its data byte at its address; no other register changes. */
  function Store(regs: Registers, c: Command): (r: Registers)
    ensures forall a :: r(a) == if a == c.addr then c.data else regs(a)
  {
    a => if a == c.addr then c.data else regs(a)
  }

  /** The register file after a list of write commands, oldest first. */
  function Written(regs: Registers, cmds: seq<Command>): Registers
    decreases |cmds|
  {
    if cmds == [] then regs else Written(Store(regs, cmds[0]), cmds[1..])
  }

  /**
   * The chip answers a command with the register at the command's address
   * with bit 0, the read/write bit, cleared.
   */
  function Answer(regs: Registers): int -> Byte {
    c => regs(c - c % 2)
  }

  /** A register no command addresses keeps its byte. */
  lemma {:induction false} WrittenElsewhere(regs: Registers, cmds: seq<Command>, a: int)
    requires forall i :: 0 <= i < |cmds| ==> cmds[i].addr != a
    ensures Written(regs, cmds)(a) == regs(a)
    decreases |cmds|
  {
    if cmds != [] {
      assert forall i :: 0 <= i < |cmds[1..]| ==> cmds[1..][i].addr == cmds[i + 1].addr;
      WrittenElsewhere(Store(regs, cmds[0]), cmds[1..], a);
    }
  }

  /** With distinct addresses, every register holds the byte its command wrote. */
  lemma {:induction false} WrittenAt(regs: Registers, cmds: seq<Command>, i: nat)
    requires i < |cmds|
    requires forall j, k :: 0 <= j < k < |cmds| ==> cmds[j].addr != cmds[k].addr
    ensures Written(regs, cmds)(cmds[i].addr) == cmds[i].data
    decreases |cmds|
  {
    var rest := cmds[1..];
    assert forall j :: 0 <= j < |rest| ==> rest[j] == cmds[j + 1];
    if i == 0 {
      WrittenElsewhere(Store(regs, cmds[0]), rest, cmds[0].addr);
    } else {
      WrittenAt(Store(regs, cmds[0]), rest, i - 1);
    }
  }

  /** Each read command the driver uses reaches the register of its write address. */
  lemma ReadReachesRegister(regs: Registers, i: nat)
    requires i < 7
    ensures Answer(regs)(ReadCommand(ClockRegisters[i])) == regs(ClockRegisters[i])
  {
    RegisterMap(i, i);
  }

  /**
   * Writing the record and reading the registers back, each at its write
   * address plus one, gives the record again, when seconds are below 80
   * and the other fields below 160.
   */
  lemma WriteThenRead(ds: DsTime, prev: DsTime, regs: Registers)
    requires ds.seconds < 80 && ds.minutes < 160 && ds.hours < 160 && ds.date < 160
    requires ds.month < 160 && ds.dayofweek < 160 && ds.year < 160
    ensures ReadDateTime(prev, Answer(Written(regs, WriteDateTime(ds))))
         == ds.(ampm := prev.ampm, hourmode := prev.hourmode)
  {
    var cmds := WriteDateTime(ds);
    var after := Written(regs, cmds);
    var r := ReadDateTime(prev, Answer(after));
    forall j, k | 0 <= j < k < 7 ensures cmds[j].addr != cmds[k].addr {
      RegisterMap(j, k);
    }
    SecondsMask(ds.seconds);
    forall i | 0 <= i < 7 ensures RegisterField(r, i) == RegisterField(ds, i) {
      ReadReachesRegister(after, i);
      WrittenAt(regs, cmds, i);
      BcdRoundTrip(RegisterField(ds, i));
    }
    assert RegisterField(r, 0) == ds.seconds && RegisterField(r, 1) == ds.minutes;
    assert RegisterField(r, 2) == ds.hours && RegisterField(r, 3) == ds.date;
    assert RegisterField(r, 4) == ds.month && RegisterField(r, 5) == ds.dayofweek;
    assert RegisterField(r, 6) == ds.year;
  }
}
