/** Marvell LinkStreet switches: src/mdio/mvls.c. In multi-chip addressing a switch
    occupies one address with a command and a data register; every access becomes a
    command that keeps the front end busy for a while. */
module MultiChip {
  import opened Words
  import opened Isa
  import opened Machine
  import opened Fragment
  import opened Drivers
  import opened Bindings
  import opened Devices
  import opened Meaning

  /** The front end. `busy` is the number of polls the running command will still
      answer as busy, `delays` those numbers for the commands to come: any finite
      list, and no delay after its end. `inner` is the switch itself. */
  datatype Front<T> = Front(inner: T, cmd: u16, data: u16, busy: nat, delays: seq<nat>)

  /** The command latched in the command register takes effect. */
  function Complete<T>(dev: Device<T>, s: Front<T>): Front<T> {
    var port, reg, op := s.cmd / 0x20 % 0x20, s.cmd % 0x20, s.cmd / 0x400 % 4;
    if s.cmd / 0x1000 % 2 == 0 then s
    else if op == 2 then
      var l := dev.load(s.inner, C22(port), reg);
      s.(inner := l.next, data := l.val)
    else if op == 1 then s.(inner := dev.store(s.inner, C22(port), reg, s.data))
    else s
  }

  /** Reading the command register: while busy the answer has bit 15 set, and the
      last such poll is the one during which the command completes. */
  function Poll<T>(dev: Device<T>, s: Front<T>): Loaded<Front<T>> {
    if s.busy == 0 then Loaded(s, s.cmd % 0x8000)
    else
      var t := s.(busy := s.busy - 1);
      Loaded(if t.busy == 0 then Complete(dev, t) else t, 0x8000 + s.cmd % 0x8000)
  }

  /** Writing the command register starts a command if bit 15 is set. */
  function Command<T>(dev: Device<T>, s: Front<T>, v: u16): Front<T> {
    if v < 0x8000 then s.(cmd := v)
    else
      var delay := if s.delays == [] then 0 else s.delays[0];
      var t := s.(cmd := v, busy := delay, delays := if s.delays == [] then [] else s.delays[1..]);
      if delay == 0 then Complete(dev, t) else t
  }

  function FrontLoad<T>(dev: Device<T>, s: Front<T>, r: u16): Loaded<Front<T>> {
    if r == 0 then Poll(dev, s) else if r == 1 then Loaded(s, s.data) else Loaded(s, NOBODY)
  }

  /** A busy front end ignores writes. */
  function FrontStore<T>(dev: Device<T>, s: Front<T>, r: u16, v: u16): Front<T> {
    if s.busy > 0 then s
    else if r == 0 then Command(dev, s, v)
    else if r == 1 then s.(data := v)
    else s
  }

  function MultiBus<T>(id: u16, dev: Device<T>): Bus<Front<T>> {
    Bus(
      (s: Front<T>, a: Addr, r: u16) =>
        if a == C22(id) then var l := FrontLoad(dev, s, r); Reply(l.val, l.next) else Reply(NOBODY, s),
      (s: Front<T>, a: Addr, r: u16, v: u16) =>
        if a == C22(id) then Reply(0, FrontStore(dev, s, r, v)) else Reply(0, s))
  }

  lemma FrontReads<T>(id: u8, dev: Device<T>, r: u16, to: nat, c: Core<Front<T>>)
    requires to < 8
    ensures var l := FrontLoad(dev, c.dev, r);
            Exec(INSN(OP_READ, IMM(id), IMM(r), REG(to)), c, MultiBus(id, dev))
            == Go(Core(c.regs[to := l.val], l.next, c.out), 0)
  {
    var l := FrontLoad(dev, c.dev, r);
    assert MultiBus(id, dev).read(c.dev, C22(id), r) == Reply(l.val, l.next);
    DoRead(id, r, to, MultiBus(id, dev), c, l.val, l.next);
  }

  lemma FrontWrites<T>(id: u8, dev: Device<T>, r: u16, arg: u18, v: u16, c: Core<Front<T>>)
    requires ArgRI(arg, c.regs) == Some(v)
    ensures Exec(INSN(OP_WRITE, IMM(id), IMM(r), arg), c, MultiBus(id, dev))
            == Go(c.(dev := FrontStore(dev, c.dev, r, v)), 0)
  {
    assert MultiBus(id, dev).write(c.dev, C22(id), r, v) == Reply(0, FrontStore(dev, c.dev, r, v));
    DoWrite(id, r, arg, MultiBus(id, dev), c, v, FrontStore(dev, c.dev, r, v));
  }

  // ---- the command word ----------------------------------------------------

  lemma MultiCmdFields(port: u8, reg: u8, write: bool)
    requires port < 0x20 && reg < 0x20
    ensures var cmd := MultiCmd(port, reg, write);
            0x8000 <= cmd && cmd / 0x1000 % 2 == 1 && cmd / 0x400 % 4 == (if write then 1 else 2)
            && cmd / 0x20 % 0x20 == port && cmd % 0x20 == reg
  {
    hide And, Or;
    Pow2Values();
    var top := 0x24 + if write then 1 else 2;
    OrDisjoint(10, top, port * 0x20);
    OrDisjoint(5, top * 0x20 + port, reg);
    var cmd := MultiCmd(port, reg, write);
    QuotientUnique(cmd, 0x20, top * 0x20 + port, reg);
    QuotientUnique(top * 0x20 + port, 0x20, top, port);
    QuotientUnique(cmd, 0x400, top, port * 0x20 + reg);
    QuotientUnique(cmd, 0x1000, 9, (top - 0x24) * 0x400 + port * 0x20 + reg);
  }

  // ---- polling -------------------------------------------------------------

  lemma MaskBusy<S>(c: Core<S>, bus: Bus<S>)
    ensures Exec(INSN(OP_AND, REG(0), IMM(MVLS_BUSY), REG(0)), c, bus)
            == Go(SetReg(c, 0, if c.regs[0] >= 0x8000 then 0x8000 else 0), 0)
  {
    hide And16, Or16, Add16, INSN, REG, IMM;
    AndBusy(c.regs[0]);
  }

  /** The jump closing a polling loop around `body`. */
  lemma AgainIfBusy<S>(body: Code, c: Core<S>, bus: Bus<S>)
    requires |body| < MAX_BODY
    ensures Exec(WhileBusy(body), c, bus) == Go(c, if c.regs[0] == 0x8000 then -|body| - 1 else 0)
    ensures WhileBusy(body).arg2 == Back(body)
  {
    hide INSN, REG, IMM;
    BackOffset(body);
    assert Mode(Back(body)) == ARG_IMM;
  }

  /** One round of the wait: poll the command register and isolate bit 15. */
  lemma PollMeaning<T>(id: u8, dev: Device<T>, c: Core<Front<T>>) returns (d: Core<Front<T>>)
    ensures Leads(WaitBody(id), MultiBus(id, dev), c, d)
    ensures d == Core(c.regs[0 := if c.dev.busy > 0 then 0x8000 else 0], Poll(dev, c.dev).next, c.out)
  {
    hide Exec, INSN, Leads, Complete;
    var bus := MultiBus(id, dev);
    var l := Poll(dev, c.dev);
    var e := Core(c.regs[0 := l.val], l.next, c.out);
    d := SetReg(e, 0, if l.val >= 0x8000 then 0x8000 else 0);
    FrontReads(id, dev, 0, 0, c);
    MaskBusy(e, bus);
    var read := INSN(OP_READ, IMM(id), IMM(MVLS_CMD), REG(0));
    StraightLine([read]);
    LeadsOne(read, bus, c, e);
    LeadsThen([read], INSN(OP_AND, REG(0), IMM(MVLS_BUSY), REG(0)), bus, c, e, d);
  }

  /** The front end once the running command, if any, is over. */
  function Settled<T>(dev: Device<T>, s: Front<T>): Front<T> {
    if s.busy == 0 then s else Complete(dev, s.(busy := 0))
  }

  /** The wait ends after finitely many polls, with the command completed. */
  lemma {:induction false} WaitMeaning<T>(id: u8, dev: Device<T>, c: Core<Front<T>>) returns (d: Core<Front<T>>)
    ensures Leads(WaitCmdCode(id), MultiBus(id, dev), c, d)
    ensures d == Core(c.regs[0 := 0], Settled(dev, c.dev), c.out)
    decreases c.dev.busy
  {
    hide Exec, Leads, Complete, WaitBody;
    var body, bus := WaitBody(id), MultiBus(id, dev);
    WaitCmdClosed(id);
    var e := PollMeaning(id, dev, c);
    AgainIfBusy(body, e, bus);
    if c.dev.busy == 0 {
      d := e;
      LoopExit(body, WhileBusy(body), bus, c, d);
    } else {
      CompleteIsIdle(dev, c.dev.(busy := 0));
      d := WaitMeaning(id, dev, e);
      LoopAgain(body, WhileBusy(body), bus, c, e, d);
    }
  }

  lemma CompleteIsIdle<T>(dev: Device<T>, s: Front<T>)
    ensures Complete(dev, s).busy == s.busy && Complete(dev, s).delays == s.delays
  {
  }

  // ---- one access ----------------------------------------------------------

  predicate SwitchReg(reg: u32) { reg / 0x1_0000 < 0x20 && reg % 0x1_0000 < 0x20 }

  function Inner<T>(dev: Device<T>, t: T, reg: u32): Loaded<T> { dev.load(t, C22(reg / 0x1_0000), reg % 0x1_0000) }

  function InnerStore<T>(dev: Device<T>, t: T, reg: u32, v: u16): T {
    dev.store(t, C22(reg / 0x1_0000), reg % 0x1_0000, v)
  }

  /** Issuing a command on an idle front end and waiting it out. */
  lemma CommandSettles<T>(dev: Device<T>, s: Front<T>, reg: u32, write: bool)
    requires s.busy == 0 && SwitchReg(reg)
    ensures var t := Settled(dev, FrontStore(dev, s, 0, MultiCmd(Upper(reg), Lower(reg), write)));
            t.busy == 0 &&
            if write then t.inner == InnerStore(dev, s.inner, reg, s.data)
            else t.inner == Inner(dev, s.inner, reg).next && t.data == Inner(dev, s.inner, reg).val
  {
    hide MultiCmd;
    MultiCmdFields(Upper(reg), Lower(reg), write);
  }

  lemma CommandMeaning<T>(id: u8, dev: Device<T>, reg: u32, write: bool, pre: Code, c: Core<Front<T>>, b: Core<Front<T>>)
      returns (d: Core<Front<T>>)
    requires b.dev.busy == 0 && SwitchReg(reg)
    requires Closed(pre) && |pre| <= 1 && Leads(pre, MultiBus(id, dev), c, b)
    ensures var cmd := MultiCmd(Upper(reg), Lower(reg), write);
            var f := pre + [INSN(OP_WRITE, IMM(id), IMM(MVLS_CMD), IMM(cmd))] + WaitCmdCode(id);
            Leads(f, MultiBus(id, dev), c, d) && Closed(f) && |f| <= 5
            && d == Core(b.regs[0 := 0], Settled(dev, FrontStore(dev, b.dev, 0, cmd)), b.out)
  {
    hide Exec, Leads, MultiCmd, WaitCmdCode, Settled, FrontStore, Closed, INSN, IMM;
    var bus, cmd := MultiBus(id, dev), MultiCmd(Upper(reg), Lower(reg), write);
    var start := INSN(OP_WRITE, IMM(id), IMM(MVLS_CMD), IMM(cmd));
    var e := b.(dev := FrontStore(dev, b.dev, 0, cmd));
    FrontWrites(id, dev, 0, IMM(cmd), cmd, b);
    LeadsThen(pre, start, bus, c, b, e);
    d := WaitMeaning(id, dev, e);
    WaitCmdClosed(id);
    LeadsSeq(pre + [start], WaitCmdCode(id), bus, c, e, d);
  }

  /** `mvls_read_to` in multi-chip mode: the inner switch sees exactly one load of
      the requested register, its value ends up in `to`, R0 is scratch, and the
      front end is idle again. */
  lemma MultiReadTo<T>(id: u8, dev: Device<T>, reg: u32, to: u8, c: Core<Front<T>>) returns (d: Core<Front<T>>)
    requires id != 0 && to < 8 && c.dev.busy == 0 && SwitchReg(reg)
    ensures Leads(MvlsReadToCode(id, reg, to), MultiBus(id, dev), c, d)
    ensures var l := Inner(dev, c.dev.inner, reg);
            d.dev.busy == 0 && d.dev.inner == l.next && d.out == c.out && d.regs == c.regs[0 := 0][to := l.val]
  {
    hide Exec, Leads, MultiCmd, WaitCmdCode, Settled, FrontStore, Closed, Inner, INSN, IMM, REG;
    var bus, cmd := MultiBus(id, dev), MultiCmd(Upper(reg), Lower(reg), false);
    var start, fetch := INSN(OP_WRITE, IMM(id), IMM(MVLS_CMD), IMM(cmd)), INSN(OP_READ, IMM(id), IMM(MVLS_DATA), REG(to));
    LeadsNothing(bus, c);
    StraightLine([]);
    var e := CommandMeaning(id, dev, reg, false, [], c, c);
    CommandSettles(dev, c.dev, reg, false);
    d := Core(e.regs[to := e.dev.data], e.dev, e.out);
    FrontReads(id, dev, 1, to, e);
    assert [] + [start] == [start];
    LeadsThen([start] + WaitCmdCode(id), fetch, bus, c, e, d);
  }

  /** `mvls_write` in multi-chip mode; the value is consumed before R0 is clobbered. */
  lemma MultiWrite<T>(id: u8, dev: Device<T>, reg: u32, arg: u18, c: Core<Front<T>>) returns (d: Core<Front<T>>)
    requires id != 0 && c.dev.busy == 0 && SwitchReg(reg) && ArgRI(arg, c.regs).Some?
    ensures Leads(MvlsWriteCode(id, reg, arg), MultiBus(id, dev), c, d)
    ensures d.dev.busy == 0 && d.dev.inner == InnerStore(dev, c.dev.inner, reg, ArgRI(arg, c.regs).value)
    ensures d.out == c.out && d.regs == c.regs[0 := 0]
  {
    hide Exec, Leads, MultiCmd, WaitCmdCode, Settled, Closed, InnerStore, INSN, IMM, REG, Complete;
    var bus := MultiBus(id, dev);
    var v := ArgRI(arg, c.regs).value;
    var put := INSN(OP_WRITE, IMM(id), IMM(MVLS_DATA), arg);
    var b := c.(dev := FrontStore(dev, c.dev, 1, v));
    FrontWrites(id, dev, 1, arg, v, c);
    StraightLine([put]);
    LeadsOne(put, bus, c, b);
    d := CommandMeaning(id, dev, reg, true, [put], c, b);
    CommandSettles(dev, b.dev, reg, true);
  }

  // ---- as bindings ---------------------------------------------------------

  function SingleBinding<T>(dev: Device<T>): Binding<T, T> {
    Binding(
      Mvls(0), DirectBus(dev), (s: T) => true, (s: T) => s,
      (reg: u32) => SwitchReg(reg), (reg: u32) => SwitchReg(reg),
      (t: T, reg: u32) => Inner(dev, t, reg),
      (t: T, reg: u32, v: u16) => InnerStore(dev, t, reg, v))
  }

  function MultiBinding<T>(id: u8, dev: Device<T>): Binding<Front<T>, T> {
    Binding(
      Mvls(id), MultiBus(id, dev), (s: Front<T>) => s.busy == 0, (s: Front<T>) => s.inner,
      (reg: u32) => SwitchReg(reg), (reg: u32) => SwitchReg(reg),
      (t: T, reg: u32) => Inner(dev, t, reg),
      (t: T, reg: u32, v: u16) => InnerStore(dev, t, reg, v))
  }

  lemma SingleReads<T>(dev: Device<T>, reg: u32, c: Core<T>) returns (d: Core<T>)
    requires SwitchReg(reg)
    ensures ReadStep(SingleBinding(dev), reg, c, d)
  {
    hide Exec, INSN, Leads;
    var bus, l := DirectBus(dev), Inner(dev, c.dev, reg);
    assert AddrOf(Upper(reg)) == C22(Upper(reg));
    assert bus.read(c.dev, C22(Upper(reg)), Lower(reg)) == Reply(l.val, l.next);
    DoRead(Upper(reg), Lower(reg), 0, bus, c, l.val, l.next);
    d := Core(c.regs[0 := l.val], l.next, c.out);
    LeadsOne(INSN(OP_READ, IMM(Upper(reg)), IMM(Lower(reg)), REG(0)), bus, c, d);
  }

  lemma SingleWrites<T>(dev: Device<T>, reg: u32, arg: u18, c: Core<T>) returns (d: Core<T>)
    requires SwitchReg(reg) && Operand(Mvls(0), arg)
    ensures WriteStep(SingleBinding(dev), reg, arg, c, d)
  {
    hide Exec, INSN, Leads;
    var bus, v := DirectBus(dev), OperandValue(Mvls(0), arg, c.regs);
    var next := InnerStore(dev, c.dev, reg, v);
    assert AddrOf(Upper(reg)) == C22(Upper(reg));
    assert bus.write(c.dev, C22(Upper(reg)), Lower(reg), v) == Reply(0, next);
    DoWrite(Upper(reg), Lower(reg), arg, bus, c, v, next);
    d := c.(dev := next);
    LeadsOne(INSN(OP_WRITE, IMM(Upper(reg)), IMM(Lower(reg)), arg), bus, c, d);
  }

  lemma SingleImplements<T(!new)>(dev: Device<T>)
    ensures Implements(SingleBinding(dev))
  {
    var b := SingleBinding(dev);
    hide ReadStep, WriteStep;
    forall reg: u32, c: Core<T> | Ready(b, reg, c) ensures exists d: Core<T> :: ReadStep(b, reg, c, d) {
      var d := SingleReads(dev, reg, c);
    }
    forall reg: u32, arg: u18, c: Core<T> | Writable(b, reg, c) && Operand(b.drv, arg)
      ensures exists d: Core<T> :: WriteStep(b, reg, arg, c, d)
    {
      var d := SingleWrites(dev, reg, arg, c);
    }
  }

  lemma MultiReads<T>(id: u8, dev: Device<T>, reg: u32, c: Core<Front<T>>) returns (d: Core<Front<T>>)
    requires id != 0 && Ready(MultiBinding(id, dev), reg, c)
    ensures ReadStep(MultiBinding(id, dev), reg, c, d)
  {
    hide Leads, MvlsReadToCode;
    d := MultiReadTo(id, dev, reg, 0, c);
  }

  lemma MultiWrites<T>(id: u8, dev: Device<T>, reg: u32, arg: u18, c: Core<Front<T>>) returns (d: Core<Front<T>>)
    requires id != 0 && Writable(MultiBinding(id, dev), reg, c) && Operand(Mvls(id), arg)
    ensures WriteStep(MultiBinding(id, dev), reg, arg, c, d)
  {
    hide Leads, MvlsWriteCode;
    d := MultiWrite(id, dev, reg, arg, c);
  }

  lemma MultiImplements<T(!new)>(id: u8, dev: Device<T>)
    requires id != 0
    ensures Implements(MultiBinding(id, dev))
  {
    var b := MultiBinding(id, dev);
    hide ReadStep, WriteStep;
    forall reg: u32, c: Core<Front<T>> | Ready(b, reg, c) ensures exists d: Core<Front<T>> :: ReadStep(b, reg, c, d) {
      var d := MultiReads(id, dev, reg, c);
    }
    forall reg: u32, arg: u18, c: Core<Front<T>> | Writable(b, reg, c) && Operand(b.drv, arg)
      ensures exists d: Core<Front<T>> :: WriteStep(b, reg, arg, c, d)
    {
      var d := MultiWrites(id, dev, reg, arg, c);
    }
  }

  /** The switch `dev` under the mvls driver, in whichever addressing mode. */
  ghost predicate Serves<S(!new), T(!new)>(b: Binding<S, T>, dev: Device<T>) {
    Implements(b) && b.drv.Mvls?
    && (forall reg :: SwitchReg(reg) ==> b.readable(reg) && b.writable(reg))
    && (forall t, reg :: b.load(t, reg) == Inner(dev, t, reg))
    && (forall t, reg, v :: b.store(t, reg, v) == InnerStore(dev, t, reg, v))
  }

  lemma BothModesServe<T(!new)>(id: u8, dev: Device<T>)
    requires id != 0
    ensures Serves(SingleBinding(dev), dev) && Serves(MultiBinding(id, dev), dev)
  {
    hide Implements;
    SingleImplements(dev);
    MultiImplements(id, dev);
  }

  /** Multi-chip addressing refines single-chip addressing: for any switch, any
      address and any finite busy times, every sequence of accesses emits the same
      words, leaves the switch in the same state and the front end idle. */
  lemma MultiChipRefinesSingleChip<T(!new)>(
      id: u8, dev: Device<T>, ops: seq<Access>, c: Core<Front<T>>, c': Core<T>)
      returns (d: Core<Front<T>>, d': Core<T>)
    requires id != 0 && c.dev.busy == 0
    requires |SessionCode(Mvls(id), ops)| < MAX_CODE && |SessionCode(Mvls(0), ops)| < MAX_CODE
    requires forall k | 0 <= k < |ops| :: SwitchReg(ops[k].reg)
    requires c.dev.inner == c'.dev && c.out == c'.out
    ensures Leads(SessionCode(Mvls(id), ops), MultiBus(id, dev), c, d)
    ensures Leads(SessionCode(Mvls(0), ops), DirectBus(dev), c', d')
    ensures d.dev.busy == 0 && d.dev.inner == d'.dev && d.out == d'.out
  {
    hide Leads, SessionCode, Implements;
    var b, b' := MultiBinding(id, dev), SingleBinding(dev);
    MultiImplements(id, dev);
    SingleImplements(dev);
    d, d' := SessionsRefine(b, b', ops, c, c');
  }

  // ---- registers that store ------------------------------------------------

  /** Storage-like switch registers; the front end's own address does not matter. */
  lemma SwitchStorage(id: u8)
    ensures Storage(SingleBinding(StorageDevice())) && Storage(MultiBinding(id, StorageDevice()))
  {
    var b := SingleBinding(StorageDevice());
    var b' := MultiBinding(id, StorageDevice());
    forall m: Memory, r: u32, v: u16 | SwitchReg(r)
      ensures b.load(b.store(m, r, v), r).val == v && b'.load(b'.store(m, r, v), r).val == v
    {
      var key := (C22(Upper(r)), Lower(r));
      assert b.store(m, r, v) == m[key := v] == b'.store(m, r, v);
    }
  }
}
