// The byte-clocked SD-over-SPI bus of the emulated transceiver: commands, their
// responses, and the blocks of data that follow.
module SdBlocks {
  import opened Words
  import opened Crc16

  datatype State = Idle | ReadToken | ReadData | ReadCrc | WriteToken | WriteData | WriteCrc

  // The bus half of the static chip structure.
  datatype Bus = Bus(state: State, cmd: seq<byte>, rsp: seq<byte>, rspLen: nat, win: seq<byte>, fn: nat,
                     blk: word, blkLeft: word, crcLeft: nat, addr: word, left: word, crc: Reg)
  {
    ghost predicate Valid() {
      && |cmd| < 6 && |rsp| == 2 && rspLen <= 2 && |win| == 6
      && (state.ReadCrc? || state.WriteCrc? ==> 1 <= crcLeft <= 2)
    }
  }

  // One byte time: what the host drives, and what chip_read() would answer were
  // it asked now.
  datatype Clock = Clock(input: byte, fetched: byte)

  datatype Access = Fetch(addr: word) | Store(addr: word, value: byte)

  // What clocking a byte does: the new state, the byte driven back, and whether
  // the chip's memory was touched.
  datatype Tick = Tick(bus: Bus, out: byte, touched: seq<Access>)

  const FILL: byte := 0xff
  const TOKEN: byte := 0xfe
  const LAST_TOKEN: byte := 0xfc
  const ACCEPTED: byte := 0xe5

  // -- Commands ----------------------------------------------------------------

  function Arg(cmd: seq<byte>): word
    requires |cmd| == 6
  {
    cmd[1] as int * 0x100_0000 + cmd[2] as int * 0x1_0000 + cmd[3] as int * 0x100 + cmd[4] as int
  }

  function FunctionOf(cmd: seq<byte>): nat
    requires |cmd| == 6
  {
    Arg(cmd) / 0x1000_0000 % 8
  }

  function AddressOf(cmd: seq<byte>): nat
    requires |cmd| == 6
  {
    Arg(cmd) / 0x200 % 0x2_0000
  }

  function CountOf(cmd: seq<byte>): nat
    requires |cmd| == 6
  {
    Arg(cmd) % 0x200
  }

  predicate IsWrite(cmd: seq<byte>)
    requires |cmd| == 6
  {
    Arg(cmd) >= HALF
  }

  predicate BlockMode(cmd: seq<byte>)
    requires |cmd| == 6
  {
    Arg(cmd) / 0x800_0000 % 2 == 1
  }

  function Index(cmd: seq<byte>): byte
    requires |cmd| == 6
  {
    cmd[0] & 0x3f
  }

  function BlockSize(cmd: seq<byte>): word
    requires |cmd| == 6
  {
    if BlockMode(cmd) then if FunctionOf(cmd) == 1 then 8 else 512 else CountOf(cmd)
  }

  function Total(cmd: seq<byte>): word
    requires |cmd| == 6
  {
    if BlockMode(cmd) then CountOf(cmd) * BlockSize(cmd) else BlockSize(cmd)
  }

  function Origin(win: seq<byte>, cmd: seq<byte>): word
    requires |cmd| == 6 && |win| == 6 && FunctionOf(cmd) < 3
  {
    var fn := FunctionOf(cmd);
    win[2 * fn + 1] as int * 0x100_0000 + win[2 * fn] as int * 0x1_0000 + AddressOf(cmd) % 0x1_0000
  }

  // There are address windows for three functions only.
  predicate InBounds(cmd: seq<byte>)
    requires |cmd| == 6
  {
    (Index(cmd) == 52 && IsWrite(cmd) && 0x1_0000 <= AddressOf(cmd) < 0x1_0002) || Index(cmd) == 53
    ==> FunctionOf(cmd) < 3
  }

  function Commanded(b: Bus, cmd: seq<byte>): (r: Bus)
    requires b.Valid() && |cmd| == 6 && InBounds(cmd)
    ensures r.Valid()
  {
    var r := b.(cmd := [], rsp := [0, 0], rspLen := 2);
    if Index(cmd) == 52 && IsWrite(cmd) then
      var at := AddressOf(cmd) - 0x1_0000;
      r.(rsp := [0, cmd[4]], win := if 0 <= at < 2 then b.win[2 * FunctionOf(cmd) + at := cmd[4]] else b.win)
    else if Index(cmd) == 53 then
      r.(fn := FunctionOf(cmd), addr := Origin(b.win, cmd), blk := BlockSize(cmd), left := Total(cmd),
         state := if IsWrite(cmd) then WriteToken else ReadToken)
    else
      r
  }

  // -- One byte time -----------------------------------------------------------

  ghost predicate Defined(b: Bus, input: byte) {
    b.Valid() && (b.state.Idle? && b.rspLen == 0 && |b.cmd| == 5 ==> InBounds(b.cmd + [input]))
  }

  function Least(a: word, b: word): word {
    if a < b then a else b
  }

  function Clocked(b: Bus, c: Clock): (t: Tick)
    requires Defined(b, c.input)
    ensures t.bus.Valid()
  {
    if b.rspLen > 0 then
      Tick(b.(rspLen := b.rspLen - 1), b.rsp[2 - b.rspLen], [])
    else match b.state {
      case Idle =>
        if b.cmd == [] && c.input & 0xc0 != 0x40 then Tick(b, FILL, [])
        else
          var cmd := b.cmd + [c.input];
          Tick(if |cmd| == 6 then Commanded(b.(cmd := []), cmd) else b.(cmd := cmd), FILL, [])
      case ReadToken =>
        Tick(b.(blkLeft := Least(b.blk, b.left), crc := ZERO, state := ReadData), TOKEN, [])
      case ReadData =>
        var r := b.(addr := Wrap(b.addr + 1), left := Wrap(b.left - 1), blkLeft := Wrap(b.blkLeft - 1),
                    crc := ByteStep(b.crc, c.fetched));
        Tick(if r.blkLeft == 0 then r.(crcLeft := 2, state := ReadCrc) else r, c.fetched, [Fetch(b.addr)])
      case ReadCrc =>
        var r := b.(crcLeft := b.crcLeft - 1);
        Tick(if r.crcLeft == 0 then r.(state := if b.left != 0 then ReadToken else Idle) else r,
             if r.crcLeft == 0 then LowByte(b.crc) else HighByte(b.crc), [])
      case WriteToken =>
        Tick(if c.input == TOKEN || c.input == LAST_TOKEN
             then b.(blkLeft := Least(b.blk, b.left), state := WriteData) else b, FILL, [])
      case WriteData =>
        var r := b.(addr := Wrap(b.addr + 1), left := Wrap(b.left - 1), blkLeft := Wrap(b.blkLeft - 1));
        Tick(if r.blkLeft == 0 then r.(crcLeft := 2, state := WriteCrc) else r, FILL, [Store(b.addr, c.input)])
      case WriteCrc =>
        var r := b.(crcLeft := b.crcLeft - 1);
        Tick(if r.crcLeft == 0
             then r.(rsp := [b.rsp[0], ACCEPTED], rspLen := 1, state := if b.left != 0 then WriteToken else Idle)
             else r, FILL, [])
    }
  }

  // mm8108_emu_spi_byte() and chip_sdio_command() on the static structure.
  class SdBus {
    var state: State
    const cmd: array<byte>
    var cmdLen: nat
    const rsp: array<byte>
    var rspLen: nat
    const win: array<byte>
    var fn: nat
    var blk: word
    var blkLeft: word
    var crcLeft: nat
    var addr: word
    var left: word
    var crc: bv16

    ghost predicate Valid()
      reads this, cmd, rsp, win
    {
      && cmd.Length == 6 && rsp.Length == 2 && win.Length == 6 && cmd != rsp && cmd != win && rsp != win
      && cmdLen < 6 && Now().Valid()
    }

    ghost function Now(): Bus
      requires cmdLen <= cmd.Length
      reads this, cmd, rsp, win
    {
      Bus(state, cmd[..cmdLen], rsp[..], rspLen, win[..], fn, blk, blkLeft, crcLeft, addr, left, Reg(crc))
    }

    // mm8108_emu_reset()
    constructor ()
      ensures Valid() && fresh(cmd) && fresh(rsp) && fresh(win)
      ensures state.Idle? && cmdLen == 0 && rspLen == 0
    {
      state, cmdLen, rspLen, fn := Idle, 0, 0, 0;
      blk, blkLeft, crcLeft, addr, left, crc := 0, 0, 0, 0, 0, 0;
      cmd := new byte[6](i => 0);
      rsp := new byte[2](i => 0);
      win := new byte[6](i => 0);
    }

    // The window registers: an SDIO write to one of the two above the address
    // space of a function.
    method WriteWindow(at: int, slot: nat, value: byte)
      requires Valid() && (0 <= at < 2 ==> slot + at < 6)
      modifies win
      ensures Valid()
      ensures Now() == old(Now()).(win := if 0 <= at < 2 then old(win[..])[slot + at := value] else old(win[..]))
    {
      if 0 <= at < 2 {
        win[slot + at] := value;
      }
    }

    method Respond(first: byte, second: byte, length: nat)
      requires Valid() && length <= 2
      modifies this`rspLen, rsp
      ensures Valid() && Now() == old(Now()).(rsp := [first, second], rspLen := length)
    {
      rsp[0], rsp[1], rspLen := first, second, length;
      assert rsp[..] == [first, second];
    }

    method SdioCommand()
      requires Valid() && cmdLen == 0 && InBounds(cmd[..])
      modifies this, rsp, win
      ensures Valid() && Now() == Commanded(old(Now()), cmd[..])
    {
      hide Arg, Origin, Index, IsWrite, BlockMode, BlockSize, FunctionOf, AddressOf, CountOf;
      var f := FunctionOf(cmd[..]);
      Respond(0, 0, 2);
      if Index(cmd[..]) == 52 && IsWrite(cmd[..]) {
        WriteWindow(AddressOf(cmd[..]) - 0x1_0000, 2 * f, cmd[4]);
        Respond(0, cmd[4], 2);
      } else if Index(cmd[..]) == 53 {
        fn := f;
        addr := Origin(win[..], cmd[..]);
        blk := BlockSize(cmd[..]);
        left := Total(cmd[..]);
        state := if IsWrite(cmd[..]) then WriteToken else ReadToken;
      }
    }

    // fetched: what chip_read() returns if it is asked; touched: the access to
    // the chip's memory made, if any.
    // stray: the byte completes a command to a function with no address window, for
    // which the source reads or writes past the last; the model stops before that.
    method SpiByte(input: byte, fetched: byte) returns (out: byte, touched: seq<Access>, stray: bool)
      requires Valid()
      modifies this, cmd, rsp, win
      ensures Valid() && (stray <==> !Defined(old(Now()), input))
      ensures if stray then Now() == old(Now())
              else Tick(Now(), out, touched) == Clocked(old(Now()), Clock(input, fetched))
    {
      hide Clocked, InBounds;
      stray := rspLen == 0 && state.Idle? && cmdLen == 5 && !InBounds(cmd[..cmdLen] + [input]);
      if stray {
        out, touched := FILL, [];
        return;
      }
      if rspLen > 0 {
        touched := [];
        out := ResponseByte(input, fetched);
      } else if state.Idle? {
        touched := [];
        out := IdleByte(input, fetched);
      } else if state.ReadToken? || state.ReadData? || state.ReadCrc? {
        out, touched := ReadByte(input, fetched);
      } else {
        out, touched := WriteByte(input, fetched);
      }
    }

    method ResponseByte(input: byte, fetched: byte) returns (out: byte)
      requires Valid() && rspLen > 0
      modifies this`rspLen
      ensures Valid() && Tick(Now(), out, []) == Clocked(old(Now()), Clock(input, fetched))
    {
      rspLen := rspLen - 1;
      return rsp[1 - rspLen];
    }

    method IdleByte(input: byte, fetched: byte) returns (out: byte)
      requires Valid() && Defined(Now(), input) && state.Idle? && rspLen == 0
      modifies this, cmd, rsp, win
      ensures Valid() && Tick(Now(), out, []) == Clocked(old(Now()), Clock(input, fetched))
    {
      hide Commanded, InBounds;
      out := FILL;
      if cmdLen > 0 || input & 0xc0 == 0x40 {
        ghost var was := cmd[..cmdLen];
        cmd[cmdLen] := input;
        cmdLen := cmdLen + 1;
        assert cmd[..cmdLen] == was + [input];
        if cmdLen == 6 {
          assert cmd[..] == cmd[..6];
          cmdLen := 0;
          SdioCommand();
        }
      }
    }

    method ReadByte(input: byte, fetched: byte) returns (out: byte, touched: seq<Access>)
      requires Valid() && rspLen == 0 && (state.ReadToken? || state.ReadData? || state.ReadCrc?)
      modifies this
      ensures Valid() && Tick(Now(), out, touched) == Clocked(old(Now()), Clock(input, fetched))
    {
      hide ByteStep, HighByte, LowByte, Wrap, RegBits, Divided, Sum, Bits, Zeros;
      touched := [];
      match state {
        case ReadToken =>
          out, blkLeft, crc, state := TOKEN, Least(blk, left), 0, ReadData;
        case ReadData =>
          out, touched := fetched, [Fetch(addr)];
          addr := Wrap(addr + 1);
          crc := Update(crc, out);
          left := Wrap(left - 1);
          blkLeft := Wrap(blkLeft - 1);
          if blkLeft == 0 { crcLeft, state := 2, ReadCrc; }
        case ReadCrc =>
          crcLeft := crcLeft - 1;
          out := if crcLeft == 1 then HighByte(Reg(crc)) else LowByte(Reg(crc));
          if crcLeft == 0 { state := if left != 0 then ReadToken else Idle; }
      }
    }

    method WriteByte(input: byte, fetched: byte) returns (out: byte, touched: seq<Access>)
      requires Valid() && rspLen == 0 && (state.WriteToken? || state.WriteData? || state.WriteCrc?)
      modifies this, rsp
      ensures Valid() && Tick(Now(), out, touched) == Clocked(old(Now()), Clock(input, fetched))
    {
      hide Wrap;
      out, touched := FILL, [];
      match state {
        case WriteToken =>
          if input == TOKEN || input == LAST_TOKEN { blkLeft, state := Least(blk, left), WriteData; }
        case WriteData =>
          touched := [Store(addr, input)];
          addr := Wrap(addr + 1);
          left := Wrap(left - 1);
          blkLeft := Wrap(blkLeft - 1);
          if blkLeft == 0 { crcLeft, state := 2, WriteCrc; }
        case WriteCrc =>
          crcLeft := crcLeft - 1;
          if crcLeft == 0 {
            state := if left != 0 then WriteToken else Idle;
            Respond(rsp[0], ACCEPTED, 1);
          }
      }
    }
  }

  // -- Runs --------------------------------------------------------------------

  datatype Trace = Trace(bus: Bus, out: seq<byte>, touched: seq<Access>)

  ghost predicate RunDefined(b: Bus, cs: seq<Clock>)
    decreases |cs|
  {
    b.Valid() && (cs == [] || (Defined(b, cs[0].input) && RunDefined(Clocked(b, cs[0]).bus, cs[1..])))
  }

  ghost function Run(b: Bus, cs: seq<Clock>): Trace
    requires RunDefined(b, cs)
    decreases |cs|
  {
    if cs == [] then Trace(b, [], []) else
      var t := Clocked(b, cs[0]);
      var rest := Run(t.bus, cs[1..]);
      Trace(rest.bus, [t.out] + rest.out, t.touched + rest.touched)
  }

  // Clocking cs takes the bus to the state of t, giving the outputs and accesses of t.
  ghost predicate Runs(b: Bus, cs: seq<Clock>, t: Trace) {
    RunDefined(b, cs) && Run(b, cs) == t
  }

  lemma RunsNothing(b: Bus)
    requires b.Valid()
    ensures Runs(b, [], Trace(b, [], []))
  {
  }

  lemma RunsOne(b: Bus, c: Clock)
    requires Defined(b, c.input)
    ensures var t := Clocked(b, c); Runs(b, [c], Trace(t.bus, [t.out], t.touched))
  {
    hide Clocked, InBounds;
    var t := Clocked(b, c);
    assert [c][0] == c && [c][1..] == [];
    assert Runs(t.bus, [], Trace(t.bus, [], []));
    assert t.touched + [] == t.touched && [t.out] + [] == [t.out];
  }

  lemma {:induction false} RunsThen(b: Bus, s: seq<Clock>, t: Trace, cs: seq<Clock>, u: Trace)
    requires Runs(b, s, t) && Runs(t.bus, cs, u)
    ensures Runs(b, s + cs, Trace(u.bus, t.out + u.out, t.touched + u.touched))
    decreases |s|
  {
    hide Clocked, Defined;
    if s == [] {
      assert s + cs == cs;
    } else {
      var c := Clocked(b, s[0]);
      assert (s + cs)[0] == s[0] && (s + cs)[1..] == s[1..] + cs;
      var rest := Run(c.bus, s[1..]);
      RunsThen(c.bus, s[1..], rest, cs, u);
      assert [c.out] + rest.out + u.out == [c.out] + (rest.out + u.out);
      assert c.touched + rest.touched + u.touched == c.touched + (rest.touched + u.touched);
    }
  }

  // The same, when the first part leaves the chip's memory alone.
  lemma RunsQuietlyThen(b: Bus, s: seq<Clock>, t: Trace, cs: seq<Clock>, u: Trace)
    requires Runs(b, s, t) && Runs(t.bus, cs, u) && t.touched == []
    ensures Runs(b, s + cs, Trace(u.bus, t.out + u.out, u.touched))
  {
    hide Runs;
    RunsThen(b, s, t, cs, u);
    assert t.touched + u.touched == u.touched;
  }

  // -- What is on the wires ----------------------------------------------------

  function Fetched(cs: seq<Clock>): (data: seq<byte>)
    ensures |data| == |cs|
  {
    if cs == [] then [] else [cs[0].fetched] + Fetched(cs[1..])
  }

  function Fetches(addr: word, n: nat): seq<Access>
    decreases n
  {
    if n == 0 then [] else [Fetch(addr)] + Fetches(Wrap(addr + 1), n - 1)
  }

  function Stores(addr: word, cs: seq<Clock>): seq<Access>
    decreases |cs|
  {
    if cs == [] then [] else [Store(addr, cs[0].input)] + Stores(Wrap(addr + 1), cs[1..])
  }

  function Fill(n: nat): seq<byte> {
    if n == 0 then [] else [0xff] + Fill(n - 1)
  }

  // A block on the wire: token, data, CRC high then low, as a host expects it.
  function Frame(data: seq<byte>): (f: seq<byte>)
    ensures |f| == |data| + 3
  {
    var crc := Crc(ZERO, data);
    [0xfe] + data + [HighByte(crc), LowByte(crc)]
  }

  // The blocks, of size bytes each, that fill the given byte times.
  function Frames(cs: seq<Clock>, size: nat): seq<byte>
    decreases |cs|
  {
    if |cs| < size + 3 then []
    else Frame(Fetched(cs[1..size + 1])) + Frames(cs[size + 3..], size)
  }

  // A 32-bit counter stepped down before it is compared with zero takes this many steps.
  function Steps(counter: word): nat {
    if counter == 0 then WORD else counter
  }

  lemma WrapTwice(x: int, y: int)
    ensures Wrap(Wrap(x) + y) == Wrap(x + y)
  {
    WrapPeriod(Wrap(x) + y, x / WORD);
  }

  // -- Reading -----------------------------------------------------------------

  function DataRead(b: Bus, cs: seq<Clock>): Bus {
    b.(state := ReadCrc, crcLeft := 2, blkLeft := 0, addr := Wrap(b.addr + |cs|), left := Wrap(b.left - |cs|),
       crc := Crc(b.crc, Fetched(cs)))
  }

  lemma {:induction false} ReadDataPhase(b: Bus, cs: seq<Clock>)
    requires b.Valid() && b.rspLen == 0 && b.state.ReadData? && |cs| == Steps(b.blkLeft)
    ensures Runs(b, cs, Trace(DataRead(b, cs), Fetched(cs), Fetches(b.addr, |cs|)))
    decreases |cs|
  {
    hide ByteStep, Run, RunDefined, Runs, Wrap;
    var c, rest := cs[0], cs[1..];
    RunsOne(b, c);
    assert cs == [c] + rest;
    if |cs| == 1 {
      assert cs == [c];
      LastRead(b, c);
    } else {
      var t := FirstRead(b, cs);
      ReadDataPhase(t, rest);
      RunsThen(b, [c], Trace(t, [c.fetched], [Fetch(b.addr)]), rest,
               Trace(DataRead(t, rest), Fetched(rest), Fetches(t.addr, |rest|)));
    }
  }

  lemma LastRead(b: Bus, c: Clock)
    requires b.Valid() && b.rspLen == 0 && b.state.ReadData? && b.blkLeft == 1
    ensures Runs(b, [c], Trace(DataRead(b, [c]), Fetched([c]), Fetches(b.addr, 1)))
  {
    hide ByteStep, Run, RunDefined, Runs;
    RunsOne(b, c);
    CrcOfOne(b.crc, c.fetched);
    assert [c][1..] == [] && Fetched([c]) == [c.fetched] && Fetches(b.addr, 1) == [Fetch(b.addr)];
  }

  lemma FirstRead(b: Bus, cs: seq<Clock>) returns (t: Bus)
    requires b.Valid() && b.rspLen == 0 && b.state.ReadData? && 1 < |cs| == Steps(b.blkLeft)
    ensures t == Clocked(b, cs[0]).bus && t.Valid() && t.rspLen == 0 && t.state.ReadData?
    ensures |cs| - 1 == Steps(t.blkLeft)
    ensures t.addr == Wrap(b.addr + 1) && DataRead(t, cs[1..]) == DataRead(b, cs)
  {
    hide ByteStep;
    t := Clocked(b, cs[0]).bus;
    WrapTwice(b.addr + 1, |cs| - 1);
    WrapTwice(b.left - 1, -(|cs| - 1));
  }

  lemma CrcOfOne(crc: Reg, v: byte)
    ensures Crc(crc, [v]) == ByteStep(crc, v)
  {
    assert [v][1..] == [];
  }

  lemma ReadCrcPhase(b: Bus, cs: seq<Clock>)
    requires b.Valid() && b.rspLen == 0 && b.state.ReadCrc? && b.crcLeft == 2 && |cs| == 2
    ensures Runs(b, cs, Trace(b.(crcLeft := 0, state := if b.left != 0 then ReadToken else Idle),
                              [HighByte(b.crc), LowByte(b.crc)], []))
  {
    hide Run, RunDefined, Runs, HighByte, LowByte;
    var t := Clocked(b, cs[0]);
    var u := Clocked(t.bus, cs[1]);
    RunsOne(b, cs[0]);
    RunsOne(t.bus, cs[1]);
    RunsThen(b, [cs[0]], Trace(t.bus, [t.out], t.touched), [cs[1]], Trace(u.bus, [u.out], u.touched));
    assert cs == [cs[0]] + [cs[1]];
    assert [t.out] + [u.out] == [HighByte(b.crc), LowByte(b.crc)] && t.touched + u.touched == [];
  }

  function BlockRead(b: Bus, data: seq<byte>): Bus {
    var left := Wrap(b.left - |data|);
    b.(state := if left != 0 then ReadToken else Idle, crcLeft := 0, blkLeft := 0, addr := Wrap(b.addr + |data|),
       left := left, crc := Crc(ZERO, data))
  }

  // One block: token, then as many bytes as the counter steps, then their CRC.
  lemma ReadBlock(b: Bus, cs: seq<Clock>, n: nat)
    requires b.Valid() && b.rspLen == 0 && b.state.ReadToken? && n == Steps(Least(b.blk, b.left)) && |cs| == n + 3
    ensures var data := Fetched(cs[1..n + 1]);
            Runs(b, cs, Trace(BlockRead(b, data), Frame(data), Fetches(b.addr, n)))
  {
    hide Run, RunDefined, Runs, HighByte, LowByte, Fetches, Fetched, Crc, Wrap;
    var token, body, last := cs[0], cs[1..n + 1], cs[n + 1..];
    var data := Fetched(body);
    var t := Clocked(b, token);
    RunsOne(b, token);
    ReadDataPhase(t.bus, body);
    var u := DataRead(t.bus, body);
    RunsThen(b, [token], Trace(t.bus, [TOKEN], []), body, Trace(u, data, Fetches(b.addr, n)));
    ReadCrcPhase(u, last);
    assert [token] + body + last == cs;
    assert [] + Fetches(b.addr, n) + [] == Fetches(b.addr, n);
    RunsThen(b, [token] + body, Trace(u, [TOKEN] + data, [] + Fetches(b.addr, n)), last,
             Trace(BlockRead(b, data), [HighByte(u.crc), LowByte(u.crc)], []));
  }

  // -- Arithmetic of blocks ----------------------------------------------------

  lemma Blocks(n: nat, size: nat)
    requires 0 < n
    ensures n * size == size + (n - 1) * size && n * (size + 3) == size + 3 + (n - 1) * (size + 3)
    ensures (n - 1) * size >= 0 && (n - 1) * (size + 3) >= 0
    ensures 1 < n && 0 < size ==> (n - 1) * size > 0
  {
  }

  lemma {:induction false} FetchesThen(addr: word, m: nat, n: nat)
    ensures Fetches(addr, m) + Fetches(Wrap(addr + m), n) == Fetches(addr, m + n)
    decreases m
  {
    if m == 0 {
      assert Wrap(addr) == addr;
      assert [] + Fetches(addr, n) == Fetches(addr, n);
    } else {
      hide Wrap;
      WrapTwice(addr + 1, m - 1);
      FetchesThen(Wrap(addr + 1), m - 1, n);
    }
  }

  // The whole transfer: n blocks back to back, then idle.
  lemma {:induction false} ReadBlocks(b: Bus, cs: seq<Clock>, n: nat)
    requires b.Valid() && b.rspLen == 0 && b.state.ReadToken?
    requires 0 < n && 0 < b.blk && b.left == n * b.blk && |cs| == n * (b.blk + 3)
    ensures exists crc :: Runs(b, cs, Trace(ReadDone(b, crc), Frames(cs, b.blk), Fetches(b.addr, b.left)))
    decreases n
  {
    hide Run, RunDefined, Runs, Fetches, Fetched, Frame, Frames, Crc, Wrap;
    var size := b.blk;
    Blocks(n, size);
    var first, rest := cs[..size + 3], cs[size + 3..];
    var data := Fetched(first[1..size + 1]);
    FirstFrame(cs, size);
    ReadBlock(b, first, size);
    var t := BlockRead(b, data);
    assert first + rest == cs && first[1..size + 1] == cs[1..size + 1];
    if n == 1 {
      NoFrame(size);
      assert rest == [] && first == cs;
      assert Frames(cs, size) == Frame(data) + [] == Frame(data);
      LastBlock(b, data);
    } else {
      MoreBlocks(b, data, n);
      ReadBlocks(t, rest, n - 1);
      var crc :| Runs(t, rest, Trace(ReadDone(t, crc), Frames(rest, size), Fetches(t.addr, t.left)));
      RunsThen(b, first, Trace(t, Frame(data), Fetches(b.addr, size)), rest,
               Trace(ReadDone(t, crc), Frames(rest, size), Fetches(t.addr, t.left)));
      FetchesThen(b.addr, size, t.left);
      WrapTwice(b.addr + size, t.left);
      assert ReadDone(t, crc) == ReadDone(b, crc);
    }
  }

  lemma NoFrame(size: nat)
    ensures Frames([], size) == []
  {
  }

  lemma LastBlock(b: Bus, data: seq<byte>)
    requires b.left == b.blk == |data|
    ensures BlockRead(b, data) == ReadDone(b, Crc(ZERO, data))
  {
    hide Crc;
  }

  lemma MoreBlocks(b: Bus, data: seq<byte>, n: nat)
    requires 1 < n && 0 < b.blk == |data| && b.left == n * b.blk
    ensures var t := BlockRead(b, data);
            t.left == (n - 1) * b.blk && t.state.ReadToken? && t.addr == Wrap(b.addr + b.blk)
  {
    hide Crc;
    Blocks(n, b.blk);
  }

  function ReadDone(b: Bus, crc: Reg): Bus {
    b.(state := Idle, crcLeft := 0, blkLeft := 0, addr := Wrap(b.addr + b.left), left := 0, crc := crc)
  }

  // -- A read command, from its first byte to the end of its data --------------

  function Inputs(cs: seq<Clock>): (data: seq<byte>)
    ensures |data| == |cs|
  {
    if cs == [] then [] else [cs[0].input] + Inputs(cs[1..])
  }

  ghost predicate Quiet(b: Bus) {
    b.Valid() && b.state.Idle? && b.rspLen == 0 && b.cmd == []
  }

  // The six bytes of a command: start bits, CMD53 or another index, argument, CRC7.
  ghost predicate IsCommand(cmd: seq<byte>) {
    |cmd| == 6 && cmd[0] & 0xc0 == 0x40 && InBounds(cmd)
  }

  ghost predicate IsRead(cmd: seq<byte>) {
    IsCommand(cmd) && Index(cmd) == 53 && !IsWrite(cmd)
  }

  // The first k bytes of a command have come in.
  lemma {:induction false} CommandBytes(b: Bus, cs: seq<Clock>, k: nat)
    requires Quiet(b) && k <= 5 && k <= |cs| && IsCommand(Inputs(cs))
    ensures Runs(b, cs[..k], Trace(b.(cmd := Inputs(cs)[..k]), Fill(k), []))
  {
    hide Run, RunDefined, Runs, InBounds;
    var cmd := Inputs(cs);
    if k == 0 {
      assert cs[..0] == [] && b.(cmd := []) == b;
      RunsNothing(b);
    } else {
      CommandBytes(b, cs, k - 1);
      var was, c := b.(cmd := cmd[..k - 1]), cs[k - 1];
      InputAt(cs, k - 1);
      RunsOne(was, c);
      assert cs[..k] == cs[..k - 1] + [c] && cmd[..k] == cmd[..k - 1] + [c.input];
      assert k == 1 ==> cmd[..k - 1] == [];
      RunsQuietlyThen(b, cs[..k - 1], Trace(was, Fill(k - 1), []), [c], Trace(b.(cmd := cmd[..k]), [FILL], []));
      FillEnds(k);
    }
  }

  lemma {:induction false} InputAt(cs: seq<Clock>, k: nat)
    requires k < |cs|
    ensures Inputs(cs)[k] == cs[k].input
  {
    if k > 0 { InputAt(cs[1..], k - 1); }
  }

  lemma {:induction false} FillEnds(k: nat)
    requires 0 < k
    ensures Fill(k - 1) + [FILL] == Fill(k)
  {
    if k > 1 { FillEnds(k - 1); }
  }

  // An idle bus takes no notice of bytes that do not begin a command.
  lemma {:induction false} IdleIgnoresNoise(b: Bus, cs: seq<Clock>)
    requires Quiet(b) && forall k :: 0 <= k < |cs| ==> cs[k].input & 0xc0 != 0x40
    ensures Runs(b, cs, Trace(b, Fill(|cs|), []))
    decreases |cs|
  {
    hide Run, RunDefined, Runs, InBounds;
    if cs == [] {
      RunsNothing(b);
    } else {
      RunsOne(b, cs[0]);
      IdleIgnoresNoise(b, cs[1..]);
      RunsQuietlyThen(b, [cs[0]], Trace(b, [FILL], []), cs[1..], Trace(b, Fill(|cs| - 1), []));
      assert [cs[0]] + cs[1..] == cs;
    }
  }

  // The command is decoded on its sixth byte, and answered in the next two.
  lemma CommandPhase(b: Bus, cs: seq<Clock>)
    requires Quiet(b) && |cs| == 8 && IsCommand(Inputs(cs[..6]))
    ensures var r := Commanded(b, Inputs(cs[..6]));
            Runs(b, cs, Trace(r.(rspLen := 0), Fill(6) + r.rsp, []))
  {
    hide Run, RunDefined, Runs, InBounds, Commanded, Fill;
    var cmd := Inputs(cs[..6]);
    CommandBytes(b, cs[..6], 5);
    var was, c := b.(cmd := cmd[..5]), cs[5];
    InputAt(cs[..6], 5);
    assert cmd[..5] + [c.input] == cmd;
    assert b.(cmd := []) == b;
    RunsOne(was, c);
    var r := Commanded(b, cmd);
    RunsQuietlyThen(b, cs[..6][..5], Trace(was, Fill(5), []), [c], Trace(r, [FILL], []));
    FillEnds(6);
    assert cs[..6][..5] + [c] == cs[..6];
    ResponsePhase(r, cs[6..], cmd, b);
    RunsQuietlyThen(b, cs[..6], Trace(r, Fill(6), []), cs[6..], Trace(r.(rspLen := 0), r.rsp, []));
    assert cs[..6] + cs[6..] == cs;
  }

  lemma ResponsePhase(r: Bus, cs: seq<Clock>, cmd: seq<byte>, b: Bus)
    requires b.Valid() && IsCommand(cmd) && r == Commanded(b, cmd) && |cs| == 2
    ensures Runs(r, cs, Trace(r.(rspLen := 0), r.rsp, []))
  {
    hide Run, RunDefined, Runs, Arg, Origin, Total, BlockSize;
    var t := r.(rspLen := 1);
    RunsOne(r, cs[0]);
    RunsOne(t, cs[1]);
    RunsQuietlyThen(r, [cs[0]], Trace(t, [r.rsp[0]], []), [cs[1]], Trace(r.(rspLen := 0), [r.rsp[1]], []));
    assert cs == [cs[0]] + [cs[1]] && r.rsp == [r.rsp[0]] + [r.rsp[1]];
  }

  // -- What commands say -------------------------------------------------------

  // The argument of an I/O command, field by field: sections 5.1 and 5.3 of the
  // SDIO Simplified Specification.  A CMD52 carries its data in the low eight bits
  // of what is a CMD53's count.
  datatype Fields = Fields(write: bool, fn: nat, block: bool, op: bool, address: nat, count: nat)
  {
    predicate InRange() {
      fn < 8 && address < 0x2_0000 && count < 0x200
    }

    function Argument(): (arg: word)
      requires InRange()
    {
      (if write then 0x8000_0000 else 0) + fn * 0x1000_0000 + (if block then 0x800_0000 else 0)
      + (if op then 0x400_0000 else 0) + address * 0x200 + count
    }
  }

  // cmd is start bits and index, the argument with its first byte first, and a CRC7,
  // which the chip does not look at.
  ghost predicate Encodes(cmd: seq<byte>, index: byte, f: Fields) {
    && |cmd| == 6 && f.InRange() && index < 0x40 && cmd[0] == 0x40 | index
    && var arg := f.Argument();
       && cmd[1] as int == arg / 0x100_0000 && cmd[2] as int == arg / 0x1_0000 % 0x100
       && cmd[3] as int == arg / 0x100 % 0x100 && cmd[4] as int == arg % 0x100
  }

  lemma QuotientAndRest(q: nat, m: nat, r: nat)
    requires r < m
    ensures (q * m + r) / m == q && (q * m + r) % m == r
  {
    var x := q * m + r;
    assert x == x / m * m + x % m;
    if x / m < q {
      MulMonotone(x / m + 1, q, m);
    } else if x / m > q {
      MulMonotone(q + 1, x / m, m);
    }
  }

  lemma FourBytes(arg: word)
    ensures arg / 0x100_0000 < 0x100
    ensures arg == arg / 0x100_0000 * 0x100_0000 + arg / 0x1_0000 % 0x100 * 0x1_0000 + arg / 0x100 % 0x100 * 0x100
                   + arg % 0x100
  {
    var q := arg / 0x100;
    var p := q / 0x100;
    assert p == arg / 0x1_0000 && p / 0x100 == arg / 0x100_0000;
  }

  lemma ArgumentComesOut(cmd: seq<byte>, index: byte, f: Fields)
    requires Encodes(cmd, index, f)
    ensures Arg(cmd) == f.Argument() && cmd[4] as int == f.Argument() % 0x100
  {
    FourBytes(f.Argument());
  }

  lemma FieldsComeOut(f: Fields)
    requires f.InRange()
    ensures var arg := f.Argument();
            && (arg >= HALF <==> f.write) && arg / 0x1000_0000 % 8 == f.fn && (arg / 0x800_0000 % 2 == 1 <==> f.block)
            && arg / 0x200 % 0x2_0000 == f.address && arg % 0x200 == f.count
            && arg % 0x100 == f.count % 0x100
  {
    var arg := f.Argument();
    var w, b, o := if f.write then 1 else 0, if f.block then 1 else 0, if f.op then 1 else 0;
    var q := w * 8 + f.fn;
    var p := q * 2 + b;
    var r := (p * 2 + o) * 0x2_0000 + f.address;
    QuotientAndRest(q, 0x1000_0000, b * 0x800_0000 + o * 0x400_0000 + f.address * 0x200 + f.count);
    QuotientAndRest(p, 0x800_0000, o * 0x400_0000 + f.address * 0x200 + f.count);
    QuotientAndRest(r, 0x200, f.count);
    QuotientAndRest(p * 2 + o, 0x2_0000, f.address);
    QuotientAndRest(w, 8, f.fn);
    QuotientAndRest(q, 2, b);
    QuotientAndRest(r * 2 + f.count / 0x100, 0x100, f.count % 0x100);
  }

  lemma IndexComesOut(index: byte, first: byte)
    requires index < 0x40 && first == 0x40 | index
    ensures first & 0xc0 == 0x40 && first & 0x3f == index
  {
  }

  // A command means what its fields say.
  lemma CommandsDecode(cmd: seq<byte>, index: byte, f: Fields)
    requires Encodes(cmd, index, f)
    ensures cmd[0] & 0xc0 == 0x40 && Index(cmd) == index && IsWrite(cmd) == f.write && FunctionOf(cmd) == f.fn
    ensures BlockMode(cmd) == f.block && AddressOf(cmd) == f.address && CountOf(cmd) == f.count
    ensures cmd[4] as int == f.count % 0x100
  {
    ArgumentComesOut(cmd, index, f);
    FieldsComeOut(f);
    IndexComesOut(index, cmd[0]);
    hide Arg;
  }

  // The eight byte times of a command and its answer.
  ghost predicate Sends(cs: seq<Clock>, index: byte, f: Fields) {
    |cs| == 8 && Encodes(Inputs(cs[..6]), index, f)
  }

  // A CMD52 write to register 0x10000 or 0x10001 of a function puts its data in that
  // half of the function's window, and in no other; it is answered with the data.
  lemma WindowIsSet(b: Bus, cs: seq<Clock>, f: Fields) returns (r: Bus, value: byte)
    requires Quiet(b) && Sends(cs, 52, f) && f.fn < 3 && f.write && 0x1_0000 <= f.address < 0x1_0002
    ensures value as int == f.count % 0x100
    ensures Runs(b, cs, Trace(r, Reply(value), [])) && r.win == b.win[2 * f.fn + f.address - 0x1_0000 := value]
    ensures Quiet(r)
  {
    hide Run, RunDefined, Runs, Encodes, IsWrite, Index, FunctionOf, AddressOf, Fill;
    var cmd := Inputs(cs[..6]);
    CommandsDecode(cmd, 52, f);
    CommandPhase(b, cs);
    value := cmd[4];
    r := Commanded(b, cmd).(rspLen := 0);
  }

  function Reply(value: byte): seq<byte> {
    Fill(6) + [0, value]
  }

  // A CMD53 sets up a transfer of the blocks its fields say, between them and the
  // address its function's window completes, and leaves the windows alone.
  lemma TransferIsSetUp(b: Bus, cs: seq<Clock>, f: Fields) returns (r: Bus)
    requires Quiet(b) && Sends(cs, 53, f) && f.fn < 3
    ensures Runs(b, cs, Trace(r, Reply(0), []))
    ensures r.Valid() && r.rspLen == 0 && r.win == b.win && r.fn == f.fn
    ensures r.state == if f.write then WriteToken else ReadToken
    ensures r.addr == b.win[2 * f.fn + 1] as int * 0x100_0000 + b.win[2 * f.fn] as int * 0x1_0000 + f.address % 0x1_0000
    ensures if f.block then r.blk == (if f.fn == 1 then 8 else 512) && r.left == f.count * r.blk
            else r.blk == r.left == f.count
  {
    hide Run, RunDefined, Runs, Encodes, IsWrite, Index, FunctionOf, AddressOf, CountOf, BlockMode, Fill;
    var cmd := Inputs(cs[..6]);
    CommandsDecode(cmd, 53, f);
    CommandPhase(b, cs);
    r := Commanded(b, cmd).(rspLen := 0);
  }

  // Any other command sets nothing up.
  lemma OtherCommandsSetNothing(b: Bus, cs: seq<Clock>, index: byte, f: Fields) returns (r: Bus)
    requires Quiet(b) && Sends(cs, index, f) && index != 53
    requires index == 52 ==> !f.write || !(0x1_0000 <= f.address < 0x1_0002)
    ensures exists rsp :: Runs(b, cs, Trace(r, Fill(6) + rsp, [])) && r == b.(rsp := rsp) && |rsp| == 2
    ensures Quiet(r)
  {
    hide Run, RunDefined, Runs, Encodes, IsWrite, Index, FunctionOf, AddressOf, Fill;
    var cmd := Inputs(cs[..6]);
    CommandsDecode(cmd, index, f);
    CommandPhase(b, cs);
    r := Commanded(b, cmd).(rspLen := 0);
    assert r == b.(rsp := r.rsp);
  }

  lemma WindowHolds(win: seq<byte>, fn: nat, a: nat, b: nat, x: byte, y: byte)
    requires |win| == 6 && fn < 3 && {a, b} == {0x1_0000, 0x1_0001}
    ensures a in {0x1_0000, 0x1_0001} && b in {0x1_0000, 0x1_0001} && a != b
    ensures var w := win[2 * fn + a - 0x1_0000 := x][2 * fn + b - 0x1_0000 := y];
            w[2 * fn + 1] == (if a == 0x1_0001 then x else y) && w[2 * fn] == if a == 0x1_0000 then x else y
  {
    assert a in {a, b} && b in {a, b} && a in {0x1_0000, 0x1_0001} && b in {0x1_0000, 0x1_0001};
    assert 0x1_0000 in {a, b} && 0x1_0001 in {a, b};
  }

  // Two CMD52 that set the halves of a window, in either order.
  lemma WindowsAreSet(b: Bus, first: seq<Clock>, second: seq<Clock>, f: Fields, g: Fields)
    returns (r: Bus, x: byte, y: byte)
    requires Quiet(b) && Sends(first, 52, f) && Sends(second, 52, g)
    requires f.write && g.write && f.fn == g.fn < 3 && {f.address, g.address} == {0x1_0000, 0x1_0001}
    ensures x as int == f.count % 0x100 && y as int == g.count % 0x100
    ensures Runs(b, first + second, Trace(r, Reply(x) + Reply(y), [])) && Quiet(r)
    ensures r.win[2 * f.fn + 1] == if f.address == 0x1_0001 then x else y
    ensures r.win[2 * f.fn] == if f.address == 0x1_0000 then x else y
  {
    hide Run, RunDefined, Runs, Sends, Reply;
    WindowHolds(b.win, f.fn, f.address, g.address, 0, 0);
    var s;
    s, x := WindowIsSet(b, first, f);
    r, y := WindowIsSet(s, second, g);
    WindowHolds(b.win, f.fn, f.address, g.address, x, y);
    RunsQuietlyThen(b, first, Trace(s, Reply(x), []), second, Trace(r, Reply(y), []));
  }

  // From an idle bus, two CMD52 that set the halves of a window, in either order,
  // and a CMD53 for that function: the transfer is at the address made of the bytes
  // they carried and the low 16 bits of its own.
  lemma TransferFollowsItsWindow(b: Bus, first: seq<Clock>, second: seq<Clock>, third: seq<Clock>,
                                 f: Fields, g: Fields, h: Fields) returns (r: Bus)
    requires Quiet(b) && Sends(first, 52, f) && Sends(second, 52, g) && Sends(third, 53, h)
    requires f.write && g.write && f.fn == g.fn == h.fn < 3 && {f.address, g.address} == {0x1_0000, 0x1_0001}
    ensures exists x, y :: Runs(b, first + second + third, Trace(r, Reply(x) + Reply(y) + Reply(0), []))
    ensures var high := if f.address == 0x1_0001 then f.count % 0x100 else g.count % 0x100;
            var low := if f.address == 0x1_0000 then f.count % 0x100 else g.count % 0x100;
            r.addr == high * 0x100_0000 + low * 0x1_0000 + h.address % 0x1_0000
    ensures r.state == if h.write then WriteToken else ReadToken
    ensures if h.block then r.blk == (if h.fn == 1 then 8 else 512) && r.left == h.count * r.blk
            else r.blk == r.left == h.count
  {
    hide Run, RunDefined, Runs, Sends, Reply;
    var t, x, y := WindowsAreSet(b, first, second, f, g);
    r := TransferIsSetUp(t, third, h);
    RunsQuietlyThen(b, first + second, Trace(t, Reply(x) + Reply(y), []), third, Trace(r, Reply(0), []));
  }

  function BlockCount(cmd: seq<byte>): nat
    requires |cmd| == 6
  {
    if BlockMode(cmd) then CountOf(cmd) else 1
  }

  // Byte times between the end of the response and the end of the transfer, as a
  // host counts them.
  function TransferTime(cmd: seq<byte>): nat
    requires |cmd| == 6
  {
    BlockCount(cmd) * (BlockSize(cmd) + 3)
  }

  // A read command is answered by two zero bytes and then by exactly its blocks,
  // fetched from consecutive addresses, whatever the host drives meanwhile; and
  // the bus is idle again on the byte time after the last CRC.
  lemma ReadCommand(b: Bus, cs: seq<Clock>)
    requires Quiet(b) && 8 <= |cs| && IsRead(Inputs(cs[..6]))
    requires var cmd := Inputs(cs[..6]); CountOf(cmd) > 0 && |cs| == 8 + TransferTime(cmd)
    ensures var cmd := Inputs(cs[..6]);
            exists r :: Runs(b, cs, Trace(r, Fill(6) + [0, 0] + Frames(cs[8..], BlockSize(cmd)),
                                          Fetches(Origin(b.win, cmd), Total(cmd))))
                        && Quiet(r) && r.addr == Wrap(Origin(b.win, cmd) + Total(cmd))
  {
    hide Run, RunDefined, Runs, Arg, Origin, Frames, Fetches, Fill;
    var cmd := Inputs(cs[..6]);
    var r := Commanded(b, cmd).(rspLen := 0);
    assert cs[..8][..6] == cs[..6] && cs[..8] + cs[8..] == cs;
    CommandPhase(b, cs[..8]);
    ReadBlocks(r, cs[8..], BlockCount(cmd));
    var crc :| Runs(r, cs[8..], Trace(ReadDone(r, crc), Frames(cs[8..], r.blk), Fetches(r.addr, r.left)));
    RunsQuietlyThen(b, cs[..8], Trace(r, Fill(6) + [0, 0], []), cs[8..],
             Trace(ReadDone(r, crc), Frames(cs[8..], r.blk), Fetches(r.addr, r.left)));
    assert Quiet(ReadDone(r, crc));
  }

  // With a count of zero the counters step down from zero: one block of 2^32
  // bytes is sent, whatever the block size.
  lemma ZeroCountReadsOn(b: Bus, cs: seq<Clock>)
    requires Quiet(b) && |cs| == 8 + WORD + 3 && IsRead(Inputs(cs[..6]))
    requires CountOf(Inputs(cs[..6])) == 0
    ensures var cmd := Inputs(cs[..6]);
            exists r :: Runs(b, cs, Trace(r, Fill(6) + [0, 0] + Frame(Fetched(cs[9..WORD + 9])),
                                          Fetches(Origin(b.win, cmd), WORD)))
                        && Quiet(r)
  {
    hide Run, RunDefined, Runs, Arg, Origin, Fetched, Frame, Fetches, Fill;
    var cmd := Inputs(cs[..6]);
    var r := Commanded(b, cmd).(rspLen := 0);
    assert cs[..8][..6] == cs[..6] && cs[..8] + cs[8..] == cs;
    CommandPhase(b, cs[..8]);
    assert r.left == 0;
    var data := Fetched(cs[9..WORD + 9]);
    assert cs[8..][1..WORD + 1] == cs[9..WORD + 9];
    ReadBlock(r, cs[8..], WORD);
    var t := BlockRead(r, data);
    RunsQuietlyThen(b, cs[..8], Trace(r, Fill(6) + [0, 0], []), cs[8..], Trace(t, Frame(data), Fetches(r.addr, WORD)));
    WrapPeriod(0, -1);
    assert Quiet(t);
  }

  // On the byte time a host expects, the bus is idle exactly when the count was
  // not zero.
  lemma ReadEndsOnTime(b: Bus, cs: seq<Clock>)
    requires Quiet(b) && 8 <= |cs| && IsRead(Inputs(cs[..6])) && |cs| == 8 + TransferTime(Inputs(cs[..6]))
    ensures RunDefined(b, cs)
    ensures Run(b, cs).bus.state.Idle? <==> CountOf(Inputs(cs[..6])) > 0
  {
    hide Run, RunDefined, Arg, Origin, Frames, Fetches, Fill;
    var cmd := Inputs(cs[..6]);
    if CountOf(cmd) > 0 {
      ReadCommand(b, cs);
    } else {
      var r := Commanded(b, cmd).(rspLen := 0);
      assert cs[..8][..6] == cs[..6] && cs[..8] + cs[8..] == cs;
      CommandPhase(b, cs[..8]);
      if BlockMode(cmd) {
        assert cs[..8] == cs;
      } else {
        var t := EmptyRead(r, cs[8..]);
        RunsQuietlyThen(b, cs[..8], Trace(r, Fill(6) + [0, 0], []), cs[8..], t);
      }
    }
  }

  lemma EmptyRead(b: Bus, cs: seq<Clock>) returns (t: Trace)
    requires b.Valid() && b.rspLen == 0 && b.state.ReadToken? && b.left == 0 && |cs| == 3
    ensures Runs(b, cs, t) && t.bus.state.ReadData?
  {
    hide Run, RunDefined, Runs, ByteStep;
    var t0 := Clocked(b, cs[0]);
    var t1 := Clocked(t0.bus, cs[1]);
    var t2 := Clocked(t1.bus, cs[2]);
    RunsOne(b, cs[0]);
    RunsOne(t0.bus, cs[1]);
    RunsOne(t1.bus, cs[2]);
    RunsThen(b, [cs[0]], Trace(t0.bus, [t0.out], t0.touched), [cs[1]], Trace(t1.bus, [t1.out], t1.touched));
    t := Trace(t2.bus, [t0.out] + [t1.out] + [t2.out], t0.touched + t1.touched + t2.touched);
    RunsThen(b, [cs[0]] + [cs[1]], Trace(t1.bus, [t0.out] + [t1.out], t0.touched + t1.touched), [cs[2]],
             Trace(t2.bus, [t2.out], t2.touched));
    assert [cs[0]] + [cs[1]] + [cs[2]] == cs;
  }

  // Every block of a transfer is where a host looks for it, and holds the bytes
  // fetched in those byte times.
  lemma {:induction false} BlockAt(cs: seq<Clock>, size: nat, n: nat, k: nat)
    requires |cs| == n * (size + 3) && k < n
    ensures var at := k * (size + 3);
            && at + size + 3 <= |Frames(cs, size)| == |cs|
            && Frames(cs, size)[at..at + size + 3] == Frame(Fetched(cs[at + 1..at + 1 + size]))
    decreases n
  {
    hide Frame, Fetched, Frames;
    Blocks(n, size);
    FramesLength(cs, size, n);
    FirstFrame(cs, size);
    var rest := cs[size + 3..];
    if k > 0 {
      Blocks(k, size);
      BlockAt(rest, size, n - 1, k - 1);
      FrameLater(cs, size, (k - 1) * (size + 3));
    } else {
      Beyond(Frame(Fetched(cs[1..size + 1])), Frames(rest, size), 0, 0);
    }
  }

  lemma FrameLater(cs: seq<Clock>, size: nat, at: nat)
    requires size + 3 <= |cs|
    requires var rest := cs[size + 3..];
             && at + size + 3 <= |Frames(rest, size)| == |rest|
             && Frames(rest, size)[at..at + size + 3] == Frame(Fetched(rest[at + 1..at + 1 + size]))
    ensures var to := size + 3 + at;
            && to + size + 3 <= |Frames(cs, size)| == |cs|
            && Frames(cs, size)[to..to + size + 3] == Frame(Fetched(cs[to + 1..to + 1 + size]))
  {
    hide Frame, Fetched, Frames;
    var first, rest := Frame(Fetched(cs[1..size + 1])), cs[size + 3..];
    FirstFrame(cs, size);
    Beyond(first, Frames(rest, size), at, size + 3);
    Slices(cs, size + 3, at + 1, size);
  }

  lemma FirstFrame(cs: seq<Clock>, size: nat)
    requires size + 3 <= |cs|
    ensures Frames(cs, size) == Frame(Fetched(cs[1..size + 1])) + Frames(cs[size + 3..], size)
  {
  }

  lemma Beyond<T>(first: seq<T>, rest: seq<T>, at: nat, n: nat)
    requires at + n <= |rest|
    ensures (first + rest)[|first| + at..|first| + at + n] == rest[at..at + n]
    ensures (first + rest)[..|first|] == first
  {
  }

  lemma Slices<T>(s: seq<T>, k: nat, at: nat, n: nat)
    requires k + at + n <= |s|
    ensures s[k..][at..at + n] == s[k + at..k + at + n]
  {
  }

  // What a host checks: the token, and that the CRC of the data with its CRC is zero.
  lemma BlockChecks(data: seq<byte>)
    ensures var f := Frame(data);
            f[0] == 0xfe && f[1..|data| + 1] == data && Crc(ZERO, f[1..]) == ZERO
  {
    hide Crc, HighByte, LowByte;
    var crc := Crc(ZERO, data);
    assert Frame(data)[1..] == data + [HighByte(crc), LowByte(crc)];
    ResidueIsZeroExactlyForTheCrc(data, HighByte(crc), LowByte(crc));
  }

  lemma {:induction false} FramesLength(cs: seq<Clock>, size: nat, n: nat)
    requires |cs| == n * (size + 3)
    ensures |Frames(cs, size)| == |cs|
    decreases n
  {
    if n > 0 {
      Blocks(n, size);
      FramesLength(cs[size + 3..], size, n - 1);
    }
  }

  // -- Writing -----------------------------------------------------------------

  // What a host sends for one block: any byte times it needs first, a token, the
  // data, a CRC (which the chip does not check), and a byte time for the answer.
  datatype Parcel = Parcel(gap: seq<Clock>, token: Clock, data: seq<Clock>, crc: seq<Clock>, answer: Clock)

  predicate IsToken(c: Clock) {
    c.input == 0xfe || c.input == 0xfc
  }

  ghost predicate Proper(p: Parcel, size: nat) {
    && (forall k :: 0 <= k < |p.gap| ==> !IsToken(p.gap[k]))
    && IsToken(p.token) && |p.data| == size && |p.crc| == 2
  }

  function Line(p: Parcel): seq<Clock> {
    p.gap + [p.token] + p.data + p.crc + [p.answer]
  }

  function Lines(ps: seq<Parcel>): seq<Clock> {
    if ps == [] then [] else Line(ps[0]) + Lines(ps[1..])
  }

  function Payload(ps: seq<Parcel>): seq<Clock> {
    if ps == [] then [] else ps[0].data + Payload(ps[1..])
  }

  function Answer(p: Parcel): seq<byte> {
    Fill(|p.gap| + 1 + |p.data| + 2) + [0xe5]
  }

  function Answers(ps: seq<Parcel>): seq<byte> {
    if ps == [] then [] else Answer(ps[0]) + Answers(ps[1..])
  }

  lemma {:induction false} FillThen(m: nat, n: nat)
    ensures Fill(m) + Fill(n) == Fill(m + n)
  {
    if m > 0 { FillThen(m - 1, n); }
  }

  lemma {:induction false} StoresThen(addr: word, s: seq<Clock>, t: seq<Clock>)
    ensures Stores(addr, s) + Stores(Wrap(addr + |s|), t) == Stores(addr, s + t)
    decreases |s|
  {
    if s == [] {
      assert Wrap(addr) == addr && s + t == t;
    } else {
      assert (s + t)[1..] == s[1..] + t;
      WrapTwice(addr + 1, |s| - 1);
      StoresThen(Wrap(addr + 1), s[1..], t);
    }
  }

  lemma {:induction false} WriteGap(b: Bus, cs: seq<Clock>)
    requires b.Valid() && b.rspLen == 0 && b.state.WriteToken? && forall k :: 0 <= k < |cs| ==> !IsToken(cs[k])
    ensures Runs(b, cs, Trace(b, Fill(|cs|), []))
    decreases |cs|
  {
    hide Run, RunDefined, Runs;
    if cs == [] {
      RunsNothing(b);
    } else {
      RunsOne(b, cs[0]);
      WriteGap(b, cs[1..]);
      RunsQuietlyThen(b, [cs[0]], Trace(b, [FILL], []), cs[1..], Trace(b, Fill(|cs| - 1), []));
      assert [cs[0]] + cs[1..] == cs;
    }
  }

  function DataWritten(b: Bus, cs: seq<Clock>): Bus {
    b.(state := WriteCrc, crcLeft := 2, blkLeft := 0, addr := Wrap(b.addr + |cs|), left := Wrap(b.left - |cs|))
  }

  lemma {:induction false} WriteDataPhase(b: Bus, cs: seq<Clock>)
    requires b.Valid() && b.rspLen == 0 && b.state.WriteData? && |cs| == Steps(b.blkLeft)
    ensures Runs(b, cs, Trace(DataWritten(b, cs), Fill(|cs|), Stores(b.addr, cs)))
    decreases |cs|
  {
    hide Run, RunDefined, Runs;
    var c, rest := cs[0], cs[1..];
    var t := Clocked(b, c);
    RunsOne(b, c);
    WrapTwice(b.addr + 1, |rest|);
    WrapTwice(b.left - 1, -|rest|);
    assert cs == [c] + rest;
    if |cs| == 1 {
      RunsNothing(t.bus);
      RunsThen(b, [c], Trace(t.bus, [FILL], t.touched), rest, Trace(t.bus, [], []));
    } else {
      WriteDataPhase(t.bus, rest);
      RunsThen(b, [c], Trace(t.bus, [FILL], t.touched), rest,
               Trace(DataWritten(t.bus, rest), Fill(|rest|), Stores(t.bus.addr, rest)));
    }
  }

  function CrcWritten(b: Bus): Bus
    requires |b.rsp| == 2
  {
    b.(crcLeft := 0, rsp := [b.rsp[0], ACCEPTED], state := if b.left != 0 then WriteToken else Idle)
  }

  lemma WriteCrcPhase(b: Bus, cs: seq<Clock>, answer: Clock)
    requires b.Valid() && b.rspLen == 0 && b.state.WriteCrc? && b.crcLeft == 2 && |cs| == 2
    ensures Runs(b, cs + [answer], Trace(CrcWritten(b), Fill(2) + [ACCEPTED], []))
  {
    hide Run, RunDefined, Runs;
    var t := Clocked(b, cs[0]);
    var u := Clocked(t.bus, cs[1]);
    RunsOne(b, cs[0]);
    RunsOne(t.bus, cs[1]);
    RunsOne(u.bus, answer);
    RunsQuietlyThen(b, [cs[0]], Trace(t.bus, [FILL], []), [cs[1]], Trace(u.bus, [FILL], []));
    assert cs == [cs[0]] + [cs[1]] && [FILL] + [FILL] == Fill(2) by { FillEnds(1); FillEnds(2); }
    RunsQuietlyThen(b, cs, Trace(u.bus, Fill(2), []), [answer], Trace(CrcWritten(b), [ACCEPTED], []));
  }

  function BlockWritten(b: Bus, n: nat): Bus
    requires |b.rsp| == 2
  {
    CrcWritten(b.(blkLeft := 0, addr := Wrap(b.addr + n), left := Wrap(b.left - n)))
  }

  lemma WriteBlock(b: Bus, p: Parcel)
    requires b.Valid() && b.rspLen == 0 && b.state.WriteToken? && Proper(p, Steps(Least(b.blk, b.left)))
    ensures Runs(b, Line(p), Trace(BlockWritten(b, |p.data|), Answer(p), Stores(b.addr, p.data)))
  {
    hide Run, RunDefined, Runs, Fill, Stores, Wrap;
    var g, n := |p.gap|, |p.data|;
    WriteGap(b, p.gap);
    RunsOne(b, p.token);
    var t := Clocked(b, p.token).bus;
    RunsQuietlyThen(b, p.gap, Trace(b, Fill(g), []), [p.token], Trace(t, [FILL], []));
    FillEnds(g + 1);
    WriteDataPhase(t, p.data);
    var u := DataWritten(t, p.data);
    RunsQuietlyThen(b, p.gap + [p.token], Trace(t, Fill(g + 1), []), p.data, Trace(u, Fill(n), Stores(b.addr, p.data)));
    FillThen(g + 1, n);
    WriteCrcPhase(u, p.crc, p.answer);
    RunsThen(b, p.gap + [p.token] + p.data, Trace(u, Fill(g + 1 + n), Stores(b.addr, p.data)), p.crc + [p.answer],
             Trace(CrcWritten(u), Fill(2) + [ACCEPTED], []));
    FillThen(g + 1 + n, 2);
    assert p.gap + [p.token] + p.data + (p.crc + [p.answer]) == Line(p);
    assert Fill(g + 1 + n) + (Fill(2) + [ACCEPTED]) == Answer(p);
    assert Stores(b.addr, p.data) + [] == Stores(b.addr, p.data);
  }

  // The bytes of the parcels, and nothing else, reach the chip, in order and at
  // consecutive addresses; each block is answered; the bus ends idle.
  lemma {:induction false} WriteBlocks(b: Bus, ps: seq<Parcel>)
    requires b.Valid() && b.rspLen == 0 && b.state.WriteToken? && ps != [] && 0 < b.blk && b.left == |ps| * b.blk
    requires forall k :: 0 <= k < |ps| ==> Proper(ps[k], b.blk)
    ensures exists r :: Runs(b, Lines(ps), Trace(r, Answers(ps), Stores(b.addr, Payload(ps))))
                        && WrittenTo(b, r)
    decreases |ps|
  {
    hide Run, RunDefined, Runs, Stores, Proper, Line, Answer;
    var n, p, rest := b.blk, ps[0], ps[1..];
    Blocks(|ps|, n);
    assert Proper(p, n);
    ProperSize(p, n);
    WriteBlock(b, p);
    var t := BlockWritten(b, n);
    if rest == [] {
      assert ps == [p];
      OneParcel(p);
      assert WrittenTo(b, t);
    } else {
      assert t.left == |rest| * n;
      WriteBlocks(t, rest);
      var r :| Runs(t, Lines(rest), Trace(r, Answers(rest), Stores(t.addr, Payload(rest)))) && WrittenTo(t, r);
      RunsThen(b, Line(p), Trace(t, Answer(p), Stores(b.addr, p.data)), Lines(rest),
               Trace(r, Answers(rest), Stores(t.addr, Payload(rest))));
      StoresThen(b.addr, p.data, Payload(rest));
      WrapTwice(b.addr + n, t.left);
      assert WrittenTo(b, r);
    }
  }

  lemma OneParcel(p: Parcel)
    ensures Lines([p]) == Line(p) && Answers([p]) == Answer(p) && Payload([p]) == p.data
  {
    hide Line, Answer;
    assert [p][1..] == [];
    assert Line(p) + [] == Line(p) && Answer(p) + [] == Answer(p) && p.data + [] == p.data;
  }

  lemma ProperSize(p: Parcel, n: nat)
    requires Proper(p, n)
    ensures |p.data| == n
  {
  }

  ghost predicate WrittenTo(b: Bus, r: Bus) {
    r.Valid() && r.state.Idle? && r.rspLen == 0 && r.cmd == b.cmd && r.left == 0 && r.addr == Wrap(b.addr + b.left)
  }

  // A write command, from its first byte to the answer to its last block.
  lemma WriteCommand(b: Bus, cs: seq<Clock>, ps: seq<Parcel>)
    requires Quiet(b) && |cs| == 8 && IsCommand(Inputs(cs[..6]))
    requires var cmd := Inputs(cs[..6]);
             && Index(cmd) == 53 && IsWrite(cmd) && CountOf(cmd) > 0 && |ps| == BlockCount(cmd)
             && forall k :: 0 <= k < |ps| ==> Proper(ps[k], BlockSize(cmd))
    ensures var cmd := Inputs(cs[..6]);
            exists r :: Runs(b, cs + Lines(ps), Trace(r, Fill(6) + [0, 0] + Answers(ps),
                                                      Stores(Origin(b.win, cmd), Payload(ps))))
                        && Quiet(r) && r.addr == Wrap(Origin(b.win, cmd) + Total(cmd))
  {
    hide Run, RunDefined, Runs, Arg, Origin, Lines, Stores, Payload, Answers, Fill, Proper;
    var cmd := Inputs(cs[..6]);
    var t := Commanded(b, cmd).(rspLen := 0);
    CommandPhase(b, cs);
    WriteBlocks(t, ps);
    var r :| Runs(t, Lines(ps), Trace(r, Answers(ps), Stores(t.addr, Payload(ps)))) && WrittenTo(t, r);
    RunsQuietlyThen(b, cs, Trace(t, Fill(6) + [0, 0], []), Lines(ps),
                    Trace(r, Answers(ps), Stores(t.addr, Payload(ps))));
    assert Quiet(r);
  }
}
