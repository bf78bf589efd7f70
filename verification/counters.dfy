/** The MIB counter program of src/mdio/mvls.c: two nested kinds of busy waiting
    inside a loop over the ports. */
module Counters {
  import opened Words
  import opened Isa
  import opened Machine
  import opened Fragment
  import opened Program
  import opened Drivers
  import opened Operations
  import opened Bindings
  import opened Devices
  import opened Meaning
  import opened MultiChip

  // ---- the program ---------------------------------------------------------

  const G1 := 0x1b
  const STATS_OP: u32 := G1 * 0x1_0000 + 0x1d
  const STATS_HI: u32 := G1 * 0x1_0000 + 0x1e
  const STATS_LO: u32 := G1 * 0x1_0000 + 0x1f

  /** (1 << 15) | (5 << 12) and (1 << 15) | (4 << 12). */
  const CAPTURE: u16 := 0xd000
  const READ_ONE: u16 := 0xc000

  const PORTS := 11

  /** Agate, Peridot and Amethyst number ports from 1 in bits 9:5, the others from 0
      in the low bits. */
  function Base(wide: bool): u16 { if wide then 0x20 else 0 }
  function Shift(wide: bool): u16 { if wide then 0x20 else 1 }

  /** Unicasts, broadcasts and multicasts, first received and then sent. */
  const COUNTER_IDS: seq<u8> := [0x04, 0x06, 0x07, 0x10, 0x13, 0x12]

  function ReadOneCode(id: u16, counter: u8): Code {
    MvlsWriteCode(id, STATS_OP, IMM(READ_ONE as int + counter)) + MvlsWaitCode(id, STATS_OP)
    + MvlsReadCode(id, STATS_HI) + [EMIT0] + MvlsReadCode(id, STATS_LO) + [EMIT0]
  }

  method CounterReadOne(prog: Prog, id: u16, counter: u8)
    modifies prog
    ensures prog.insns == old(prog.insns) + ReadOneCode(id, counter)
  {
    hide MvlsWriteCode, MvlsWaitCode, MvlsReadCode;
    MvlsWrite(prog, id, STATS_OP, IMM(READ_ONE as int + counter));
    MvlsWait(prog, id, STATS_OP);
    MvlsRead(prog, id, STATS_HI);
    prog.Push(EMIT0);
    MvlsRead(prog, id, STATS_LO);
    prog.Push(EMIT0);
  }

  function ReadManyCode(id: u16, counters: seq<u8>): Code {
    if counters == [] then []
    else ReadManyCode(id, counters[..|counters| - 1]) + ReadOneCode(id, counters[|counters| - 1])
  }

  function NextPort(wide: bool): Insn { INSN(OP_ADD, REG(1), IMM(Shift(wide)), REG(1)) }

  function PortBody(id: u16, wide: bool): Code {
    MvlsWriteCode(id, STATS_OP, REG(1)) + MvlsWaitCode(id, STATS_OP) + ReadManyCode(id, COUNTER_IDS) + [NextPort(wide)]
  }

  /** The operand that ends the loop: CAPTURE | (base + shift * 11). */
  function LastPort(wide: bool): u16 { CAPTURE + Base(wide) + Shift(wide) * PORTS }

  function PortAgain(wide: bool, body: Code): Insn {
    INSN(OP_JNE, REG(1), IMM(LastPort(wide)), GOTO(|body|, 0))
  }

  function PortLoop(id: u16, wide: bool): Code { PortBody(id, wide) + [PortAgain(wide, PortBody(id, wide))] }

  function FirstPort(wide: bool): Insn { INSN(OP_ADD, IMM(CAPTURE + Base(wide)), IMM(0), REG(1)) }

  function CounterCode(id: u16, wide: bool): Code {
    MvlsWaitCode(id, STATS_OP) + [FirstPort(wide)] + PortLoop(id, wide)
  }

  method PushReads(prog: Prog, id: u16)
    modifies prog
    ensures prog.insns == old(prog.insns) + ReadManyCode(id, COUNTER_IDS)
  {
    hide ReadOneCode;
    var i := 0;
    while i < |COUNTER_IDS|
      invariant 0 <= i <= |COUNTER_IDS| && prog.insns == old(prog.insns) + ReadManyCode(id, COUNTER_IDS[..i])
    {
      assert COUNTER_IDS[..i + 1][..i] == COUNTER_IDS[..i];
      CounterReadOne(prog, id, COUNTER_IDS[i]);
      i := i + 1;
    }
    assert COUNTER_IDS[..i] == COUNTER_IDS;
  }

  method PushPortLoop(prog: Prog, id: u16, wide: bool)
    modifies prog
    ensures prog.insns == old(prog.insns) + PortLoop(id, wide)
  {
    hide MvlsWriteCode, MvlsWaitCode, ReadManyCode, INSN, REG, IMM, GOTO;
    var loop := prog.Len();
    MvlsWrite(prog, id, STATS_OP, REG(1));
    MvlsWait(prog, id, STATS_OP);
    PushReads(prog, id);
    prog.Push(NextPort(wide));
    ghost var body := PortBody(id, wide);
    assert prog.insns == old(prog.insns) + body;
    GotoIsRelative(loop, |body|, 0);
    prog.Push(INSN(OP_JNE, REG(1), IMM(LastPort(wide)), GOTO(prog.Len(), loop)));
    assert prog.insns == old(prog.insns) + (body + [PortAgain(wide, body)]);
  }

  method CounterExec(id: u16, wide: bool) returns (prog: Prog)
    ensures fresh(prog) && prog.insns == CounterCode(id, wide)
  {
    hide MvlsWaitCode, PortLoop, INSN, REG, IMM;
    prog := new Prog();
    MvlsWait(prog, id, STATS_OP);
    prog.Push(FirstPort(wide));
    PushPortLoop(prog, id, wide);
  }

  // ---- the statistics unit -------------------------------------------------

  datatype Capture = Capture(number: nat, port: nat)

  /** `busy` and `delays` as for the front end; `taken` counts the captures so far
      and `last` is the one the read operations refer to. */
  datatype Stats = Stats(busy: nat, delays: seq<nat>, cmd: u16, taken: nat, last: Capture, hi: u16, lo: u16)

  /** `traffic(n, port, counter)` is the value of a counter at the n-th capture. */
  datatype Unit = Unit(wide: bool, traffic: (nat, nat, nat) -> u32)

  function PortField(wide: bool, cmd: u16): nat { if wide then (cmd / 0x20 % 0x20 + 31) % 32 else cmd % 0x20 }

  function Perform(u: Unit, s: Stats): Stats {
    var op := s.cmd / 0x1000 % 8;
    if op == 5 then s.(taken := s.taken + 1, last := Capture(s.taken, PortField(u.wide, s.cmd)))
    else if op == 4 then
      var v := u.traffic(s.last.number, s.last.port, s.cmd % 0x40);
      s.(hi := v / 0x1_0000, lo := v % 0x1_0000)
    else s
  }

  function StatsLoad(u: Unit, s: Stats, reg: u16): Loaded<Stats> {
    if reg == 0x1d then
      if s.busy == 0 then Loaded(s, s.cmd % 0x8000)
      else
        var t := s.(busy := s.busy - 1);
        Loaded(if t.busy == 0 then Perform(u, t) else t, 0x8000 + s.cmd % 0x8000)
    else Loaded(s, if reg == 0x1e then s.hi else if reg == 0x1f then s.lo else 0)
  }

  function StatsStore(u: Unit, s: Stats, reg: u16, v: u16): Stats {
    if reg != 0x1d || s.busy > 0 then s
    else if v < 0x8000 then s.(cmd := v)
    else
      var delay := if s.delays == [] then 0 else s.delays[0];
      var t := s.(cmd := v, busy := delay, delays := if s.delays == [] then [] else s.delays[1..]);
      if delay == 0 then Perform(u, t) else t
  }

  /** A switch of which only the statistics unit matters. */
  function StatsDevice(u: Unit): Device<Stats> {
    Device(
      (s: Stats, a: Addr, r: u16) => if a == C22(0x1b) then StatsLoad(u, s, r) else Loaded(s, NOBODY),
      (s: Stats, a: Addr, r: u16, v: u16) => if a == C22(0x1b) then StatsStore(u, s, r, v) else s)
  }

  lemma UnitLoads<S(!new)>(b: Binding<S, Stats>, u: Unit, s: Stats, reg: u16)
    requires Serves(b, StatsDevice(u)) && reg < 0x20
    ensures b.load(s, G1 * 0x1_0000 + reg as int) == StatsLoad(u, s, reg)
  {
    var r: u32 := G1 * 0x1_0000 + reg as int;
    assert Upper(r) == G1 && Lower(r) == reg;
    assert b.load(s, r) == Inner(StatsDevice(u), s, r);
  }

  lemma UnitStores<S(!new)>(b: Binding<S, Stats>, u: Unit, s: Stats, v: u16)
    requires Serves(b, StatsDevice(u))
    ensures b.store(s, STATS_OP, v) == StatsStore(u, s, 0x1d, v)
  {
    assert Upper(STATS_OP) == G1 && Lower(STATS_OP) == 0x1d;
    assert b.store(s, STATS_OP, v) == InnerStore(StatsDevice(u), s, STATS_OP, v);
  }

  /** The unit once its running operation, if any, is over. */
  function Idle(u: Unit, s: Stats): Stats { if s.busy == 0 then s else Perform(u, s.(busy := 0)) }

  lemma PerformIsIdle(u: Unit, s: Stats)
    ensures Perform(u, s).busy == s.busy
  {
  }

  // ---- waiting for the unit ------------------------------------------------

  /** Which fragments of the driver are closed, once and for all. */
  lemma WaitClosed(id: u16, reg: u32)
    ensures Closed(MvlsWaitBody(id, reg)) && |MvlsWaitBody(id, reg)| <= 6
    ensures Closed(MvlsWaitCode(id, reg)) && |MvlsWaitCode(id, reg)| <= 7
    ensures WhileBusy(MvlsWaitBody(id, reg)).arg2 == Back(MvlsWaitBody(id, reg))
  {
    hide MvlsReadToCode;
    MvlsClosed(id, reg, 0, 0);
    var mask := INSN(OP_AND, REG(0), IMM(MVLS_BUSY), REG(0));
    StraightLine([mask]);
    ClosedConcat(MvlsReadCode(id, reg), [mask]);
    ClosedLoop(MvlsWaitBody(id, reg), WhileBusy(MvlsWaitBody(id, reg)));
  }

  /** What a fragment of this program does: it leaves R1 to R7 alone. */
  ghost predicate Does<S>(b: Binding<S, Stats>, f: Code, c: Core<S>, d: Core<S>, s: Stats, vals: seq<u16>) {
    Leads(f, b.bus, c, d) && b.ok(d.dev) && b.abs(d.dev) == s && d.out == c.out + vals && Keeps(c, d, 1)
  }

  lemma DoesSeq<S>(b: Binding<S, Stats>, f: Code, g: Code, c: Core<S>, d: Core<S>, e: Core<S>,
                   s: Stats, t: Stats, v: seq<u16>, w: seq<u16>)
    requires Closed(f) && Closed(g) && |f| + |g| < MAX_CODE
    requires Does(b, f, c, d, s, v) && Does(b, g, d, e, t, w)
    ensures Closed(f + g) && Does(b, f + g, c, e, t, v + w)
  {
    hide Leads, Closed;
    LeadsSeq(f, g, b.bus, c, d, e);
    assert c.out + v + w == c.out + (v + w);
  }

  /** One round of the wait on the unit. */
  lemma StatsPoll<S(!new)>(b: Binding<S, Stats>, u: Unit, c: Core<S>) returns (d: Core<S>)
    requires Serves(b, StatsDevice(u)) && b.ok(c.dev)
    ensures var s := b.abs(c.dev);
            Does(b, MvlsWaitBody(b.drv.id, STATS_OP), c, d, StatsLoad(u, s, 0x1d).next, [])
            && d.regs[0] == if s.busy > 0 then 0x8000 else 0
  {
    hide Leads, Closed, Exec, MvlsReadCode, Implements, Perform;
    var s := b.abs(c.dev);
    UnitLoads(b, u, s, 0x1d);
    assert b.readable(STATS_OP);
    var e := RunRead(b, STATS_OP, c);
    MaskBusy(e, b.bus);
    d := SetReg(e, 0, if e.regs[0] >= 0x8000 then 0x8000 else 0);
    ReadCodeClosed(b.drv, STATS_OP);
    LeadsThen(MvlsReadCode(b.drv.id, STATS_OP), INSN(OP_AND, REG(0), IMM(MVLS_BUSY), REG(0)), b.bus, c, e, d);
    assert c.out + [] == c.out;
  }

  lemma {:induction false} StatsWait<S(!new)>(b: Binding<S, Stats>, u: Unit, c: Core<S>) returns (d: Core<S>)
    requires Serves(b, StatsDevice(u)) && b.ok(c.dev)
    ensures Does(b, MvlsWaitCode(b.drv.id, STATS_OP), c, d, Idle(u, b.abs(c.dev)), [])
    decreases b.abs(c.dev).busy
  {
    hide Leads, Closed, Exec, MvlsWaitBody, Implements, Perform;
    var body, s := MvlsWaitBody(b.drv.id, STATS_OP), b.abs(c.dev);
    var e := StatsPoll(b, u, c);
    WaitClosed(b.drv.id, STATS_OP);
    AgainIfBusy(body, e, b.bus);
    if s.busy == 0 {
      d := e;
      LoopExit(body, WhileBusy(body), b.bus, c, d);
    } else {
      PerformIsIdle(u, s.(busy := 0));
      d := StatsWait(b, u, e);
      LoopAgain(body, WhileBusy(body), b.bus, c, e, d);
      assert c.out + [] + [] == c.out + [];
    }
  }

  // ---- reading one counter -------------------------------------------------

  /** Starting an operation on the idle unit and waiting it out. */
  function Done(u: Unit, s: Stats, v: u16): Stats { Idle(u, StatsStore(u, s, 0x1d, v)) }

  lemma StatsCommand<S(!new)>(b: Binding<S, Stats>, u: Unit, arg: u18, c: Core<S>) returns (d: Core<S>)
    requires Serves(b, StatsDevice(u)) && b.ok(c.dev) && Operand(b.drv, arg)
    ensures var f := MvlsWriteCode(b.drv.id, STATS_OP, arg) + MvlsWaitCode(b.drv.id, STATS_OP);
            Closed(f) && |f| <= 13
            && Does(b, f, c, d, Done(u, b.abs(c.dev), OperandValue(b.drv, arg, c.regs)), [])
  {
    hide Leads, Closed, MvlsWriteCode, MvlsWaitCode, Implements, StatsStore, Idle;
    var v := OperandValue(b.drv, arg, c.regs);
    UnitStores(b, u, b.abs(c.dev), v);
    assert SwitchReg(STATS_OP);
    var e := RunWrite(b, STATS_OP, arg, c);
    d := StatsWait(b, u, e);
    assert c.out + [] == c.out;
    WriteCodeClosed(b.drv, STATS_OP, arg);
    WaitClosed(b.drv.id, STATS_OP);
    DoesSeq(b, MvlsWriteCode(b.drv.id, STATS_OP, arg), MvlsWaitCode(b.drv.id, STATS_OP), c, e, d,
            b.abs(e.dev), b.abs(d.dev), [], []);
  }

  lemma StatsFetch<S(!new)>(b: Binding<S, Stats>, u: Unit, low: u16, c: Core<S>) returns (d: Core<S>)
    requires Serves(b, StatsDevice(u)) && b.ok(c.dev) && low < 0x20 && low != 0x1d
    ensures var f := MvlsReadCode(b.drv.id, G1 * 0x1_0000 + low as int) + [EMIT0];
            var s := b.abs(c.dev);
            Closed(f) && |f| <= 7 && Does(b, f, c, d, s, [StatsLoad(u, s, low).val])
  {
    hide Leads, Closed, Exec, MvlsReadCode, Implements;
    var reg: u32 := G1 * 0x1_0000 + low as int;
    UnitLoads(b, u, b.abs(c.dev), low);
    assert SwitchReg(reg);
    var e := RunRead(b, reg, c);
    d := e.(out := e.out + [e.regs[0]]);
    EmitR0(b.bus, e);
    ReadCodeClosed(b.drv, reg);
    LeadsThen(MvlsReadCode(b.drv.id, reg), EMIT0, b.bus, c, e, d);
  }

  /** The value of a counter at the capture the unit refers to. */
  function Counted(u: Unit, s: Stats, counter: u8): u32 { u.traffic(s.last.number, s.last.port, counter) }

  function HalfWords(v: u32): seq<u16> { [v / 0x1_0000, v % 0x1_0000] }

  lemma DoneRead(u: Unit, s: Stats, counter: u8)
    requires s.busy == 0 && counter < 0x40
    ensures var t := Done(u, s, READ_ONE + counter as int);
            t.busy == 0 && t.taken == s.taken && t.last == s.last
            && [StatsLoad(u, t, 0x1e).val] + [StatsLoad(u, t, 0x1f).val] == HalfWords(Counted(u, s, counter))
  {
  }

  lemma ReadOneMeaning<S(!new)>(b: Binding<S, Stats>, u: Unit, counter: u8, c: Core<S>) returns (d: Core<S>, t: Stats)
    requires Serves(b, StatsDevice(u)) && b.ok(c.dev) && b.abs(c.dev).busy == 0 && counter < 0x40
    ensures var s := b.abs(c.dev);
            Closed(ReadOneCode(b.drv.id, counter)) && |ReadOneCode(b.drv.id, counter)| <= 27
            && Does(b, ReadOneCode(b.drv.id, counter), c, d, t, HalfWords(Counted(u, s, counter)))
            && t.busy == 0 && t.taken == s.taken && t.last == s.last
  {
    hide Leads, Closed, MvlsWriteCode, MvlsWaitCode, MvlsReadCode, Implements, Done, StatsLoad, Counted, HalfWords, Does, IMM;
    var s, arg := b.abs(c.dev), IMM(READ_ONE as int + counter);
    assert Mode(arg) == ARG_IMM && OperandValue(b.drv, arg, c.regs) == READ_ONE + counter as int;
    t := Done(u, s, READ_ONE + counter as int);
    DoneRead(u, s, counter);
    var e := StatsCommand(b, u, arg, c);
    DoesEnds(b, MvlsWriteCode(b.drv.id, STATS_OP, arg) + MvlsWaitCode(b.drv.id, STATS_OP), c, e, t, []);
    var f := StatsFetch(b, u, 0x1e, e);
    var hi := [StatsLoad(u, t, 0x1e).val];
    var command := MvlsWriteCode(b.drv.id, STATS_OP, arg) + MvlsWaitCode(b.drv.id, STATS_OP);
    var fetchHi := MvlsReadCode(b.drv.id, STATS_HI) + [EMIT0];
    DoesEnds(b, fetchHi, e, f, t, hi);
    d := StatsFetch(b, u, 0x1f, f);
    var lo := [StatsLoad(u, t, 0x1f).val];
    var fetchLo := MvlsReadCode(b.drv.id, STATS_LO) + [EMIT0];
    DoesSeq(b, command, fetchHi, c, e, f, t, t, [], hi);
    DoesSeq(b, command + fetchHi, fetchLo, c, f, d, t, t, [] + hi, lo);
    assert [] + hi + lo == hi + lo;
    assert command + fetchHi + fetchLo == ReadOneCode(b.drv.id, counter);
  }

  lemma DoesEnds<S>(b: Binding<S, Stats>, f: Code, c: Core<S>, d: Core<S>, s: Stats, vals: seq<u16>)
    requires Does(b, f, c, d, s, vals)
    ensures b.ok(d.dev) && b.abs(d.dev) == s && Keeps(c, d, 1)
  {
  }

  /** The words of several counters of one capture. */
  function CounterWords(u: Unit, at: Capture, counters: seq<u8>): (w: seq<u16>)
    ensures |w| == 2 * |counters|
  {
    if counters == [] then []
    else CounterWords(u, at, counters[..|counters| - 1]) + HalfWords(u.traffic(at.number, at.port, counters[|counters| - 1]))
  }

  lemma {:induction false} ReadManyMeaning<S(!new)>(b: Binding<S, Stats>, u: Unit, counters: seq<u8>, c: Core<S>)
      returns (d: Core<S>, t: Stats)
    requires Serves(b, StatsDevice(u)) && b.ok(c.dev) && b.abs(c.dev).busy == 0
    requires |counters| <= 6 && forall k | 0 <= k < |counters| :: counters[k] < 0x40
    ensures var s, f := b.abs(c.dev), ReadManyCode(b.drv.id, counters);
            Closed(f) && |f| <= 27 * |counters| && Does(b, f, c, d, t, CounterWords(u, s.last, counters))
            && t.busy == 0 && t.taken == s.taken && t.last == s.last
    decreases |counters|
  {
    hide Leads, Closed, ReadOneCode, Implements, HalfWords;
    if counters == [] {
      d, t := c, b.abs(c.dev);
      LeadsNothing(b.bus, c);
      StraightLine([]);
      assert c.out + [] == c.out;
    } else {
      var init, last := counters[..|counters| - 1], counters[|counters| - 1];
      var e, s := ReadManyMeaning(b, u, init, c);
      d, t := ReadOneMeaning(b, u, last, e);
      DoesSeq(b, ReadManyCode(b.drv.id, init), ReadOneCode(b.drv.id, last), c, e, d, s, t,
              CounterWords(u, s.last, init), HalfWords(Counted(u, s, last)));
    }
  }

  // ---- the loop over the ports ---------------------------------------------

  function PortOp(wide: bool, port: nat): u16
    requires port <= PORTS
  {
    CAPTURE + Base(wide) + Shift(wide) * port
  }

  lemma DoneCapture(u: Unit, s: Stats, port: nat)
    requires s.busy == 0 && port < PORTS
    ensures var t := Done(u, s, PortOp(u.wide, port));
            t.busy == 0 && t.taken == s.taken + 1 && t.last == Capture(s.taken, port)
  {
    PortOpFields(u.wide, port);
  }

  lemma PortOpFields(wide: bool, port: nat)
    requires port < PORTS
    ensures var cmd := PortOp(wide, port);
            cmd >= 0x8000 && cmd / 0x1000 % 8 == 5 && PortField(wide, cmd) == port
  {
    if wide {
      assert PortOp(wide, port) / 0x20 == 0x680 + 1 + port;
    }
  }

  lemma PortNumbers(wide: bool, port: nat)
    requires port < PORTS
    ensures Add16(CAPTURE + Base(wide), 0) == PortOp(wide, 0)
    ensures Add16(PortOp(wide, port), Shift(wide)) == PortOp(wide, port + 1)
    ensures PortOp(wide, port) != LastPort(wide) == PortOp(wide, PORTS)
  {
  }

  lemma PortSetUp<S>(wide: bool, c: Core<S>, bus: Bus<S>)
    ensures Exec(FirstPort(wide), c, bus) == Go(SetReg(c, 1, PortOp(wide, 0)), 0)
    ensures !IsJump(FirstPort(wide)) && !IsJump(NextPort(wide))
  {
    hide And16, Or16, INSN, REG, IMM, PortOp;
    PortNumbers(wide, 0);
  }

  lemma PortNext<S>(wide: bool, port: nat, c: Core<S>, bus: Bus<S>)
    requires port < PORTS && c.regs[1] == PortOp(wide, port)
    ensures Exec(NextPort(wide), c, bus) == Go(SetReg(c, 1, PortOp(wide, port + 1)), 0)
  {
    hide And16, Or16, INSN, REG, IMM, PortOp;
    PortNumbers(wide, port);
  }

  lemma PortTest<S>(wide: bool, port: nat, c: Core<S>, bus: Bus<S>, body: Code)
    requires |body| < MAX_BODY && port <= PORTS && c.regs[1] == PortOp(wide, port)
    ensures Exec(PortAgain(wide, body), c, bus) == Go(c, if port == PORTS then 0 else -|body| - 1)
    ensures PortAgain(wide, body).arg2 == Back(body)
  {
    hide And16, Or16, Add16, INSN, REG, IMM, PortOp, LastPort;
    BackOffset(body);
    assert Mode(Back(body)) == ARG_IMM;
    PortNumbers(wide, if port < PORTS then port else 0);
  }

  lemma PortBodyMeaning<S(!new)>(b: Binding<S, Stats>, u: Unit, port: nat, c: Core<S>) returns (d: Core<S>, t: Stats)
    requires Serves(b, StatsDevice(u)) && b.ok(c.dev) && b.abs(c.dev).busy == 0
    requires port < PORTS && c.regs[1] == PortOp(u.wide, port)
    ensures var s, f := b.abs(c.dev), PortBody(b.drv.id, u.wide);
            Closed(f) && |f| <= 176 && Leads(f, b.bus, c, d)
            && b.ok(d.dev) && b.abs(d.dev) == t && t.busy == 0 && t.taken == s.taken + 1
            && d.regs[1] == PortOp(u.wide, port + 1)
            && d.out == c.out + CounterWords(u, Capture(s.taken, port), COUNTER_IDS)
  {
    hide Leads, Closed, MvlsWriteCode, MvlsWaitCode, ReadManyCode, Implements, Done, CounterWords, REG, INSN, Exec, PortOp;
    var s := b.abs(c.dev);
    Operand1(b.drv, c.regs);
    var e := StatsCommand(b, u, REG(1), c);
    DoneCapture(u, s, port);
    var f, t' := ReadManyMeaning(b, u, COUNTER_IDS, e);
    t := t';
    var command := MvlsWriteCode(b.drv.id, STATS_OP, REG(1)) + MvlsWaitCode(b.drv.id, STATS_OP);
    var readAll := ReadManyCode(b.drv.id, COUNTER_IDS);
    var words := CounterWords(u, Capture(s.taken, port), COUNTER_IDS);
    DoesSeq(b, command, readAll, c, e, f, b.abs(e.dev), t, [], words);
    assert [] + words == words;
    assert f.regs[1] == c.regs[1];
    PortSetUp(u.wide, f, b.bus);
    PortNext(u.wide, port, f, b.bus);
    d := SetReg(f, 1, PortOp(u.wide, port + 1));
    LeadsThen(command + readAll, NextPort(u.wide), b.bus, c, f, d);
  }

  lemma Operand1(drv: Driver, regs: Regs)
    requires drv.Mvls?
    ensures Operand(drv, REG(1)) && OperandValue(drv, REG(1), regs) == regs[1]
  {
  }

  /** The words of the ports from `port` on, with captures numbered from `first`. */
  function Table(u: Unit, first: nat, port: nat): seq<u16>
    requires port <= PORTS
    decreases PORTS - port
  {
    if port == PORTS then []
    else CounterWords(u, Capture(first, port), COUNTER_IDS) + Table(u, first + 1, port + 1)
  }

  /** One pass over a port: from `c` at the start of the body to `e` at its end. */
  ghost predicate PortPass<S>(b: Binding<S, Stats>, u: Unit, port: nat, c: Core<S>, e: Core<S>)
    requires port < PORTS
  {
    var s, t := b.abs(c.dev), b.abs(e.dev);
    Leads(PortBody(b.drv.id, u.wide), b.bus, c, e) && b.ok(e.dev) && t.busy == 0 && t.taken == s.taken + 1
    && e.regs[1] == PortOp(u.wide, port + 1)
    && e.out == c.out + CounterWords(u, Capture(s.taken, port), COUNTER_IDS)
  }

  /** The ports from `port` on: from `c` at the start of the loop to `d` after it. */
  ghost predicate PortsDone<S>(b: Binding<S, Stats>, u: Unit, port: nat, c: Core<S>, d: Core<S>)
    requires port < PORTS
  {
    var s, t := b.abs(c.dev), b.abs(d.dev);
    Leads(PortLoop(b.drv.id, u.wide), b.bus, c, d) && b.ok(d.dev) && t.busy == 0
    && t.taken == s.taken + (PORTS - port) && d.out == c.out + Table(u, s.taken, port)
  }

  lemma PortLoopShape(id: u16, wide: bool)
    requires Closed(PortBody(id, wide)) && |PortBody(id, wide)| <= 176
    ensures Closed(PortLoop(id, wide)) && |PortLoop(id, wide)| <= 177
    ensures PortAgain(wide, PortBody(id, wide)).arg2 == Back(PortBody(id, wide))
  {
    hide Closed, PortBody, INSN, REG, IMM, GOTO;
    BackOffset(PortBody(id, wide));
    ClosedLoop(PortBody(id, wide), PortAgain(wide, PortBody(id, wide)));
  }

  lemma LastPortDone<S>(b: Binding<S, Stats>, u: Unit, port: nat, c: Core<S>, e: Core<S>)
    requires Closed(PortBody(b.drv.id, u.wide)) && |PortBody(b.drv.id, u.wide)| <= 176
    requires port + 1 == PORTS && PortPass(b, u, port, c, e)
    ensures PortsDone(b, u, port, c, e)
  {
    hide Leads, Closed, Exec, PortBody, PortOp, CounterWords, PortAgain;
    var body := PortBody(b.drv.id, u.wide);
    PortTest(u.wide, port + 1, e, b.bus, body);
    LoopExit(body, PortAgain(u.wide, body), b.bus, c, e);
    var taken := b.abs(c.dev).taken;
    var row := CounterWords(u, Capture(taken, port), COUNTER_IDS);
    assert Table(u, taken + 1, port + 1) == [];
    assert row + [] == row;
  }

  lemma TableRow(u: Unit, first: nat, port: nat)
    requires port < PORTS
    ensures Table(u, first, port) == CounterWords(u, Capture(first, port), COUNTER_IDS) + Table(u, first + 1, port + 1)
  {
    hide CounterWords;
  }

  lemma MorePortsDone<S>(b: Binding<S, Stats>, u: Unit, port: nat, c: Core<S>, e: Core<S>, d: Core<S>)
    requires Closed(PortBody(b.drv.id, u.wide)) && |PortBody(b.drv.id, u.wide)| <= 176
    requires port + 1 < PORTS && PortPass(b, u, port, c, e) && PortsDone(b, u, port + 1, e, d)
    ensures PortsDone(b, u, port, c, d)
  {
    hide Leads, Closed, Exec, PortBody, PortOp, CounterWords, PortAgain, Table;
    var body, taken := PortBody(b.drv.id, u.wide), b.abs(c.dev).taken;
    PortTest(u.wide, port + 1, e, b.bus, body);
    LoopAgain(body, PortAgain(u.wide, body), b.bus, c, e, d);
    TableRow(u, taken, port);
    var row, rest := CounterWords(u, Capture(taken, port), COUNTER_IDS), Table(u, taken + 1, port + 1);
    assert c.out + row + rest == c.out + (row + rest);
  }

  lemma {:induction false} PortLoopMeaning<S(!new)>(b: Binding<S, Stats>, u: Unit, port: nat, c: Core<S>) returns (d: Core<S>)
    requires Serves(b, StatsDevice(u)) && b.ok(c.dev) && b.abs(c.dev).busy == 0
    requires port < PORTS && c.regs[1] == PortOp(u.wide, port)
    ensures Closed(PortLoop(b.drv.id, u.wide)) && |PortLoop(b.drv.id, u.wide)| <= 177
    ensures Leads(PortLoop(b.drv.id, u.wide), b.bus, c, d) && b.ok(d.dev)
    ensures b.abs(d.dev).busy == 0 && b.abs(d.dev).taken == b.abs(c.dev).taken + (PORTS - port)
    ensures d.out == c.out + Table(u, b.abs(c.dev).taken, port)
    decreases PORTS - port
  {
    hide Leads, Closed, PortBody, PortLoop, PortOp, CounterWords, Serves, PortAgain, Table, StatsDevice;
    var e, t := PortBodyMeaning(b, u, port, c);
    PortLoopShape(b.drv.id, u.wide);
    if port + 1 == PORTS {
      d := e;
      LastPortDone(b, u, port, c, d);
    } else {
      d := PortLoopMeaning(b, u, port + 1, e);
      MorePortsDone(b, u, port, c, e, d);
    }
  }

  const TABLE_WORDS := PORTS * 12

  /** The counter program, for either port numbering and any binding that serves the
      switch: whatever the unit is busy with at the start and however long every
      operation takes, it takes exactly one capture per port and emits the 132 words
      of the table, port by port. */
  lemma CounterRun<S(!new)>(b: Binding<S, Stats>, u: Unit, c: Core<S>) returns (d: Core<S>)
    requires Serves(b, StatsDevice(u)) && b.ok(c.dev)
    ensures Leads(CounterCode(b.drv.id, u.wide), b.bus, c, d) && b.ok(d.dev) && b.abs(d.dev).busy == 0
    ensures var first := Idle(u, b.abs(c.dev)).taken;
            d.out == c.out + Table(u, first, 0) && b.abs(d.dev).taken == first + PORTS
  {
    hide Leads, Closed, Exec, MvlsWaitCode, PortLoop, PortOp, Table, Serves, Idle;
    var e := StatsWait(b, u, c);
    IdleIsIdle(u, b.abs(c.dev));
    WaitClosed(b.drv.id, STATS_OP);
    PortSetUp(u.wide, e, b.bus);
    var z := SetReg(e, 1, PortOp(u.wide, 0));
    var wait := MvlsWaitCode(b.drv.id, STATS_OP);
    assert c.out + [] == c.out;
    LeadsThen(wait, FirstPort(u.wide), b.bus, c, e, z);
    d := PortLoopMeaning(b, u, 0, z);
    LeadsSeq(wait + [FirstPort(u.wide)], PortLoop(b.drv.id, u.wide), b.bus, c, z, d);
  }

  lemma IdleIsIdle(u: Unit, s: Stats)
    ensures Idle(u, s).busy == 0
  {
    PerformIsIdle(u, s.(busy := 0));
  }

  // ---- what is where in the table ------------------------------------------

  lemma {:induction false} WordsIndex(u: Unit, at: Capture, counters: seq<u8>, n: nat)
    requires n < |counters|
    ensures CounterWords(u, at, counters)[2 * n..2 * n + 2] == HalfWords(u.traffic(at.number, at.port, counters[n]))
    decreases |counters|
  {
    var k := |counters| - 1;
    if n < k {
      WordsIndex(u, at, counters[..k], n);
      var v := u.traffic(at.number, at.port, counters[k]);
      assert CounterWords(u, at, counters)[2 * n..2 * n + 2] == CounterWords(u, at, counters[..k])[2 * n..2 * n + 2];
    }
  }

  function PairAt(words: seq<u16>, at: nat): seq<u16>
    requires at + 2 <= |words|
  {
    words[at..at + 2]
  }

  lemma PairIn(row: seq<u16>, rest: seq<u16>, at: nat)
    requires at + 2 <= |row| + |rest|
    ensures at + 2 <= |row| ==> PairAt(row + rest, at) == PairAt(row, at)
    ensures at >= |row| ==> PairAt(row + rest, at) == PairAt(rest, at - |row|)
  {
  }

  lemma {:induction false} TableSize(u: Unit, first: nat, port: nat)
    requires port <= PORTS
    ensures |Table(u, first, port)| == 12 * (PORTS - port)
    decreases PORTS - port
  {
    hide CounterWords;
    if port < PORTS {
      TableSize(u, first + 1, port + 1);
    }
  }

  /** The first row of a table, and the pairs of the others. */
  lemma FirstRow(u: Unit, first: nat, port: nat, n: nat)
    requires port < PORTS && n < |COUNTER_IDS|
    ensures 2 * n + 2 <= |Table(u, first, port)|
    ensures PairAt(Table(u, first, port), 2 * n) == HalfWords(u.traffic(first, port, COUNTER_IDS[n]))
  {
    hide Table, HalfWords, CounterWords;
    TableSize(u, first, port);
    TableRow(u, first, port);
    WordsIndex(u, Capture(first, port), COUNTER_IDS, n);
    var row, rest := CounterWords(u, Capture(first, port), COUNTER_IDS), Table(u, first + 1, port + 1);
    PairIn(row, rest, 2 * n);
  }

  lemma OtherRows(u: Unit, first: nat, port: nat, at: nat)
    requires port < PORTS && at + 2 <= |Table(u, first + 1, port + 1)|
    ensures 12 + at + 2 <= |Table(u, first, port)|
    ensures PairAt(Table(u, first, port), 12 + at) == PairAt(Table(u, first + 1, port + 1), at)
  {
    hide Table, CounterWords;
    TableRow(u, first, port);
    var row, rest := CounterWords(u, Capture(first, port), COUNTER_IDS), Table(u, first + 1, port + 1);
    PairIn(row, rest, 12 + at);
  }

  lemma {:induction false} PairOfTable(u: Unit, first: nat, port: nat, ahead: nat, n: nat)
    requires port + ahead < PORTS && n < |COUNTER_IDS|
    ensures 12 * ahead + 2 * n + 2 <= |Table(u, first, port)|
    ensures PairAt(Table(u, first, port), 12 * ahead + 2 * n)
            == HalfWords(u.traffic(first + ahead, port + ahead, COUNTER_IDS[n]))
    decreases ahead
  {
    hide HalfWords, Table, PairAt;
    if ahead == 0 {
      FirstRow(u, first, port, n);
    } else {
      PairOfTable(u, first + 1, port + 1, ahead - 1, n);
      OtherRows(u, first, port, 12 * (ahead - 1) + 2 * n);
    }
  }

  /** Words 12 * i + 2 * n and the next hold counter n of port i, upper half first,
      and all counters of a port come from the same capture. */
  lemma TableIndex(u: Unit, first: nat, port: nat, i: nat, n: nat)
    requires port <= i < 11 && n < 6
    ensures |Table(u, first, port)| == 12 * (11 - port)
    ensures var at: nat := 12 * (i - port) + 2 * n;
            var v := u.traffic(first + (i - port), i, [0x04, 0x06, 0x07, 0x10, 0x13, 0x12][n]);
            Table(u, first, port)[at..at + 2] == [v / 0x1_0000, v % 0x1_0000]
  {
    hide Table;
    TableSize(u, first, port);
    PairOfTable(u, first, port, i - port, n);
  }

  // ---- the callback --------------------------------------------------------

  /** (hi << 16) | lo on 32-bit words. */
  function Combine(hi: u32, lo: u32): u32 {
    Pow2Values();
    OrBound(32, hi as int * 0x1_0000 % 0x1_0000_0000, lo);
    Or(hi as int * 0x1_0000 % 0x1_0000_0000, lo)
  }

  lemma CombineHalves(v: u32)
    ensures Combine(HalfWords(v)[0], HalfWords(v)[1]) == v
  {
    hide Or;
    Pow2Values();
    OrDisjoint(16, v / 0x1_0000, v % 0x1_0000);
  }

  lemma CombineWords(hi: u16, lo: u16)
    ensures Combine(hi, lo) == hi as int * 0x1_0000 + lo
  {
    hide Or;
    Pow2Values();
    OrDisjoint(16, hi, lo);
  }

  const COUNTERS := 6

  function CellOf(data: seq<u32>, i: nat, n: nat): u32
    requires |data| == TABLE_WORDS && i < PORTS && n < COUNTERS
  {
    Combine(data[12 * i + 2 * n], data[12 * i + 2 * n + 1])
  }

  /** `struct mvls_counter_ctx`. */
  class CounterCtx {
    var prev: array2<u32>

    constructor ()
      ensures fresh(prev) && prev.Length0 == 11 && prev.Length1 == 6
      ensures forall i, n | 0 <= i < 11 && 0 <= n < 6 :: prev[i, n] == 0
    {
      prev := new u32[PORTS, COUNTERS]((i, n) => 0);
    }

    /** `mvls_counter_cb` without the printing: a table of the wrong size is refused
        and changes nothing, any other becomes the new reference. */
    method Update(data: seq<u32>, err: int) returns (ret: int)
      requires prev.Length0 == 11 && prev.Length1 == 6
      modifies prev
      ensures ret == if |data| == 132 then err else 1
      ensures |data| != 132 ==> forall i, n | 0 <= i < 11 && 0 <= n < 6 :: prev[i, n] == old(prev[i, n])
      ensures |data| == 132 ==> forall i, n | 0 <= i < 11 && 0 <= n < 6 :: prev[i, n] == CellOf(data, i, n)
    {
      hide Combine;
      if |data| != TABLE_WORDS {
        return 1;
      }
      var i := 0;
      while i < PORTS
        invariant 0 <= i <= PORTS
        invariant forall j, n | 0 <= j < i && 0 <= n < COUNTERS :: prev[j, n] == CellOf(data, j, n)
      {
        var now := seq(COUNTERS, n requires 0 <= n < COUNTERS => CellOf(data, i, n));
        var same := true;
        var n := 0;
        while n < COUNTERS
          invariant 0 <= n <= COUNTERS
          invariant same <==> forall m | 0 <= m < n :: prev[i, m] == now[m]
        {
          same := same && prev[i, n] == now[n];
          n := n + 1;
        }
        if !same {
          n := 0;
          while n < COUNTERS
            invariant 0 <= n <= COUNTERS
            invariant forall m | 0 <= m < n :: prev[i, m] == now[m]
            invariant forall j, m | 0 <= j < i && 0 <= m < COUNTERS :: prev[j, m] == CellOf(data, j, m)
          {
            prev[i, n] := now[n];
            n := n + 1;
          }
        }
        i := i + 1;
      }
      ret := err;
    }
  }

  /** Fed with the words of the program, the callback recovers the 32-bit counters
      of the switch. */
  lemma CallbackRecoversCounters(u: Unit, first: nat, i: nat, n: nat)
    requires i < 11 && n < 6
    ensures |Table(u, first, 0)| == 132
    ensures CellOf(Table(u, first, 0), i, n) == u.traffic(first + i, i, [0x04, 0x06, 0x07, 0x10, 0x13, 0x12][n])
  {
    hide Combine, Table;
    TableIndex(u, first, 0, i, n);
    var v := u.traffic(first + i, i, [0x04, 0x06, 0x07, 0x10, 0x13, 0x12][n]);
    CombineHalves(v);
    var t, at := Table(u, first, 0), 12 * i + 2 * n;
    assert t[at] == t[at..at + 2][0] && t[at + 1] == t[at..at + 2][1];
  }

  /** The printed table: 132 words in all, and for port i the six counters of capture
      first + i, in the order of the columns: unicasts, broadcasts and multicasts
      received, then the same sent. */
  ghost predicate Shows(u: Unit, first: nat, words: seq<u16>) {
    |words| == 132
    && forall i | 0 <= i < 11 ::
         CellOf(words, i, 0) == u.traffic(first + i, i, 0x04)
         && CellOf(words, i, 1) == u.traffic(first + i, i, 0x06)
         && CellOf(words, i, 2) == u.traffic(first + i, i, 0x07)
         && CellOf(words, i, 3) == u.traffic(first + i, i, 0x10)
         && CellOf(words, i, 4) == u.traffic(first + i, i, 0x13)
         && CellOf(words, i, 5) == u.traffic(first + i, i, 0x12)
  }

  lemma TableShows(u: Unit, first: nat)
    ensures Shows(u, first, Table(u, first, 0))
  {
    hide Table, CellOf;
    CallbackRecoversCounters(u, first, 0, 0);
    forall i, n | 0 <= i < 11 && 0 <= n < 6
      ensures CellOf(Table(u, first, 0), i, n) == u.traffic(first + i, i, [0x04, 0x06, 0x07, 0x10, 0x13, 0x12][n])
    {
      CallbackRecoversCounters(u, first, i, n);
    }
  }

  /** From the run to the printed table, on any binding that serves the switch, with
      one capture per port. */
  lemma CounterMeaning<S(!new)>(b: Binding<S, Stats>, u: Unit, c: Core<S>) returns (d: Core<S>, words: seq<u16>)
    requires Serves(b, StatsDevice(u)) && b.ok(c.dev)
    ensures Leads(CounterCode(b.drv.id, u.wide), b.bus, c, d) && b.ok(d.dev) && d.out == c.out + words
    ensures var first := Idle(u, b.abs(c.dev)).taken;
            Shows(u, first, words) && b.abs(d.dev).taken == first + 11 && b.abs(d.dev).busy == 0
  {
    hide Leads, CounterCode, Table, Shows, Serves, StatsDevice, Idle;
    d := CounterRun(b, u, c);
    var first := Idle(u, b.abs(c.dev)).taken;
    words := Table(u, first, 0);
    TableShows(u, first);
  }

  /** So it is right in both addressing modes: with commands, however long each of
      them takes, and with the switch directly on the bus. */
  lemma CounterInBothModes(id: u8, u: Unit, c: Core<Front<Stats>>, c': Core<Stats>)
      returns (d: Core<Front<Stats>>, words: seq<u16>, d': Core<Stats>, words': seq<u16>)
    requires id != 0 && c.dev.busy == 0
    ensures Leads(CounterCode(id, u.wide), MultiBus(id, StatsDevice(u)), c, d)
    ensures d.dev.busy == d.dev.inner.busy == 0 && d.out == c.out + words
    ensures var first := Idle(u, c.dev.inner).taken;
            Shows(u, first, words) && d.dev.inner.taken == first + 11
    ensures Leads(CounterCode(0, u.wide), DirectBus(StatsDevice(u)), c', d')
    ensures d'.dev.busy == 0 && d'.out == c'.out + words'
    ensures var first := Idle(u, c'.dev).taken;
            Shows(u, first, words') && d'.dev.taken == first + 11
  {
    hide Serves, Leads, CounterCode, Shows, Idle, StatsDevice;
    BothModesServe(id, StatsDevice(u));
    d, words := CounterMeaning(MultiBinding(id, StatsDevice(u)), u, c);
    d', words' := CounterMeaning(SingleBinding(StatsDevice(u)), u, c');
  }
}
