/** MMD registers through Clause 22 registers 13 and 14: src/mdio/phy.c against
    sections 22.2.4.3.11 and 22.2.4.3.12 of IEEE Std 802.3-2018. */
module MmdWindow {
  import opened Words
  import opened Isa
  import opened Machine
  import opened Fragment
  import opened Drivers
  import opened Bindings
  import opened Devices
  import opened Meaning

  /** MMD registers by device address and register number. */
  type Mmds = map<(u16, u16), u16>

  /** `ctrl` is register 13; every MMD has an address register of its own. */
  datatype Window = Window(ctrl: u16, addr: map<u16, u16>, mmds: Mmds)

  const ADDRESS := 0
  const DATA := 1
  const DATA_INC := 2

  function Fn(s: Window): int { s.ctrl / 0x4000 }
  function Selected(s: Window): u16 { s.ctrl % 32 }
  function Address(s: Window): u16 { if Selected(s) in s.addr then s.addr[Selected(s)] else 0 }

  function Advance(s: Window): Window { s.(addr := s.addr[Selected(s) := Add16(Address(s), 1)]) }

  function ReadPort(s: Window): Loaded<Window> {
    if Fn(s) == ADDRESS then Loaded(s, Address(s))
    else
      Loaded(if Fn(s) == DATA_INC then Advance(s) else s, Lookup(s.mmds, (Selected(s), Address(s))))
  }

  function WritePort(s: Window, v: u16): Window {
    if Fn(s) == ADDRESS then s.(addr := s.addr[Selected(s) := v])
    else
      var t := s.(mmds := s.mmds[(Selected(s), Address(s)) := v]);
      if Fn(s) == DATA then t else Advance(t)
  }

  function WindowLoad(s: Window, reg: u16): Loaded<Window> {
    if reg == 13 then Loaded(s, s.ctrl) else if reg == 14 then ReadPort(s) else Loaded(s, NOBODY)
  }

  function WindowStore(s: Window, reg: u16, v: u16): Window {
    if reg == 13 then s.(ctrl := v) else if reg == 14 then WritePort(s, v) else s
  }

  function WindowBus(prtad: u16): Bus<Window> {
    Bus(
      (s: Window, a: Addr, r: u16) =>
        if a == C22(prtad) then var l := WindowLoad(s, r); Reply(l.val, l.next) else Reply(NOBODY, s),
      (s: Window, a: Addr, r: u16, v: u16) =>
        if a == C22(prtad) then Reply(0, WindowStore(s, r, v)) else Reply(0, s))
  }

  lemma BusReads(prtad: u16, s: Window, r: u16)
    ensures WindowBus(prtad).read(s, C22(prtad), r) == Reply(WindowLoad(s, r).val, WindowLoad(s, r).next)
  {
  }

  lemma BusWrites(prtad: u16, s: Window, r: u16, v: u16)
    ensures WindowBus(prtad).write(s, C22(prtad), r, v) == Reply(0, WindowStore(s, r, v))
  {
  }

  predicate C45Id(id: u16) { 0x8000 <= id < 0x8400 }

  /** The window pointed at one register, function "data, no post increment",
      whatever registers 13 and 14 held before. */
  function PointAt(s: Window, dev: u16, reg: u16): Window
    requires dev < 32
  {
    s.(ctrl := dev + 0x4000, addr := s.addr[dev := reg])
  }

  lemma PointedAt(s: Window, dev: u16, reg: u16, v: u16)
    requires dev < 32
    ensures var p := PointAt(s, dev, reg);
            WindowLoad(p, 14) == Loaded(p, Lookup(s.mmds, (dev, reg))) && p.mmds == s.mmds
            && WindowStore(p, 14, v) == p.(mmds := s.mmds[(dev, reg) := v])
            && p.ctrl == dev + 0x4000 && p.addr == s.addr[dev := reg]
  {
  }

  lemma WriteStepAt(id: u16, r: u16, arg: u18, v: u16, c: Core<Window>)
    requires ArgRI(arg, c.regs) == Some(v)
    ensures Exec(INSN(OP_WRITE, IMM(PortAddr(id)), IMM(r), arg), c, WindowBus(PortAddr(id)))
            == Go(c.(dev := WindowStore(c.dev, r, v)), 0)
  {
    BusWrites(PortAddr(id), c.dev, r, v);
    DoWrite(PortAddr(id), r, arg, WindowBus(PortAddr(id)), c, v, WindowStore(c.dev, r, v));
  }

  lemma SelectStates(s: Window, dev: u16, reg: u16)
    requires dev < 32
    ensures WindowStore(WindowStore(WindowStore(s, 13, dev), 14, reg), 13, dev + 0x4000) == PointAt(s, dev, reg)
  {
  }

  lemma SelectMeaning(id: u16, reg: u16, c: Core<Window>) returns (d: Core<Window>)
    ensures Leads(MmdSelectCode(id, reg), WindowBus(PortAddr(id)), c, d)
    ensures d == c.(dev := PointAt(c.dev, DevAddr(id), reg))
    ensures Closed(MmdSelectCode(id, reg)) && |MmdSelectCode(id, reg)| == 3
  {
    hide WindowStore, PointAt, Leads, Exec, IMM, INSN, WindowBus, Closed;
    var bus, p := WindowBus(PortAddr(id)), PortAddr(id);
    var dev: u16 := DevAddr(id);
    var i0 := INSN(OP_WRITE, IMM(p), IMM(13), IMM(dev));
    var i1 := INSN(OP_WRITE, IMM(p), IMM(14), IMM(reg));
    var i2 := INSN(OP_WRITE, IMM(p), IMM(13), IMM(dev + 0x4000));
    var c1 := c.(dev := WindowStore(c.dev, 13, dev));
    var c2 := c1.(dev := WindowStore(c1.dev, 14, reg));
    d := c2.(dev := WindowStore(c2.dev, 13, dev + 0x4000));
    SelectStates(c.dev, dev, reg);
    WriteStepAt(id, 13, IMM(dev), dev, c);
    WriteStepAt(id, 14, IMM(reg), reg, c1);
    WriteStepAt(id, 13, IMM(dev + 0x4000), dev + 0x4000, c2);
    StraightLine([i0]);
    LeadsOne(i0, bus, c, c1);
    LeadsThen([i0], i1, bus, c, c1, c2);
    LeadsThen([i0] + [i1], i2, bus, c, c2, d);
  }

  function MmdLoad(id: u16, m: Mmds, reg: u32): Loaded<Mmds> {
    Loaded(m, Lookup(m, (id % 0x20, reg % 0x1_0000)))
  }

  function MmdStore(id: u16, m: Mmds, reg: u32, v: u16): Mmds {
    m[(id % 0x20, reg % 0x1_0000) := v]
  }

  /** The `mmd-c22` driver; the state of registers 13 and 14 is no concern of its user. */
  function WindowBinding(id: u16): Binding<Window, Mmds> {
    Binding(
      MmdC22(id), WindowBus(id / 0x20 % 0x20), (s: Window) => true, (s: Window) => s.mmds,
      (reg: u32) => reg < 0x1_0000, (reg: u32) => reg < 0x1_0000,
      (m: Mmds, reg: u32) => MmdLoad(id, m, reg),
      (m: Mmds, reg: u32, v: u16) => MmdStore(id, m, reg, v))
  }

  /** One access. It ends with function 1 selected, data without post increment, so the
      address register still points at the register accessed. */
  lemma WindowReads(id: u16, reg: u32, c: Core<Window>) returns (d: Core<Window>)
    requires reg < 0x1_0000
    ensures ReadStep(WindowBinding(id), reg, c, d)
    ensures d.dev.ctrl == id % 0x20 + 0x4000 && d.dev.addr == c.dev.addr[(id % 0x20) as u16 := reg as u16]
  {
    hide Exec, Leads, MmdSelectCode, WindowLoad, WindowStore, PointAt, Closed, INSN, IMM;
    var bus, p := WindowBus(PortAddr(id)), PortAddr(id);
    var e := SelectMeaning(id, reg, c);
    PointedAt(c.dev, DevAddr(id), reg, 0);
    var l := WindowLoad(e.dev, 14);
    d := Core(e.regs[0 := l.val], e.dev, e.out);
    BusReads(p, e.dev, 14);
    DoRead(p, 14, 0, bus, e, l.val, e.dev);
    LeadsThen(MmdSelectCode(id, reg), INSN(OP_READ, IMM(p), IMM(14), REG(0)), bus, c, e, d);
  }

  lemma WindowWrites(id: u16, reg: u32, arg: u18, c: Core<Window>) returns (d: Core<Window>)
    requires reg < 0x1_0000 && Operand(MmdC22(id), arg)
    ensures WriteStep(WindowBinding(id), reg, arg, c, d)
    ensures d.dev.ctrl == id % 0x20 + 0x4000 && d.dev.addr == c.dev.addr[(id % 0x20) as u16 := reg as u16]
  {
    hide Exec, Leads, MmdSelectCode, WindowLoad, WindowStore, PointAt, Closed, INSN, IMM;
    var bus, p := WindowBus(PortAddr(id)), PortAddr(id);
    var v := OperandValue(MmdC22(id), arg, c.regs);
    var e := SelectMeaning(id, reg, c);
    d := e.(dev := WindowStore(e.dev, 14, v));
    PointedAt(c.dev, DevAddr(id), reg, v);
    WriteStepAt(id, 14, arg, v, e);
    LeadsThen(MmdSelectCode(id, reg), INSN(OP_WRITE, IMM(p), IMM(14), arg), bus, c, e, d);
  }

  lemma WindowImplements(id: u16)
    ensures Implements(WindowBinding(id))
  {
    var b := WindowBinding(id);
    hide ReadStep, WriteStep;
    forall reg: u32, c: Core<Window> | Ready(b, reg, c) ensures exists d: Core<Window> :: ReadStep(b, reg, c, d) {
      var d := WindowReads(id, reg, c);
    }
    forall reg: u32, arg: u18, c: Core<Window> | Writable(b, reg, c) && Operand(b.drv, arg)
      ensures exists d: Core<Window> :: WriteStep(b, reg, arg, c, d)
    {
      var d := WindowWrites(id, reg, arg, c);
    }
  }

  lemma WindowStorage(id: u16)
    ensures Storage(WindowBinding(id))
  {
    var b := WindowBinding(id);
    forall m: Mmds, r: u32, v: u16 | b.writable(r) ensures b.load(b.store(m, r, v), r).val == v {
      assert b.store(m, r, v) == MmdStore(id, m, r, v);
    }
  }

  // ---- the same registers over Clause 45 -----------------------------------

  /** A device that answers Clause 45 frames for one port address. */
  function C45Device(prtad: u16): Device<Mmds> {
    Device(
      (m: Mmds, a: Addr, r: u16) =>
        if a.C45? && a.prtad == prtad then Loaded(m, Lookup(m, (a.devad, r))) else Loaded(m, NOBODY),
      (m: Mmds, a: Addr, r: u16, v: u16) =>
        if a.C45? && a.prtad == prtad then m[(a.devad, r) := v] else m)
  }

  lemma SameOperations(id: u16, m: Mmds, reg: u32, v: u16)
    requires C45Id(id)
    ensures PhyBinding(id, C45Device(PortAddr(id))).load(m, reg) == WindowBinding(id).load(m, reg)
    ensures PhyBinding(id, C45Device(PortAddr(id))).store(m, reg, v) == WindowBinding(id).store(m, reg, v)
  {
    assert AddrOf(id) == C45(PortAddr(id), DevAddr(id));
    var key: (u16, u16) := (id % 0x20, reg % 0x1_0000);
    assert key == (DevAddr(id) as u16, Lower(reg));
    assert PhyBinding(id, C45Device(PortAddr(id))).load(m, reg) == Loaded(m, Lookup(m, key));
    assert PhyBinding(id, C45Device(PortAddr(id))).store(m, reg, v) == m[key := v];
    assert WindowBinding(id).load(m, reg) == MmdLoad(id, m, reg);
    assert WindowBinding(id).store(m, reg, v) == MmdStore(id, m, reg, v);
  }

  /** Any sequence of accesses over registers 13 and 14 emits the same words and
      leaves the same MMD contents as the same accesses in Clause 45 frames, from
      whatever state registers 13 and 14 were in. */
  lemma WindowRefinesClause45(id: u16, ops: seq<Access>, c: Core<Window>, c': Core<Mmds>)
      returns (d: Core<Window>, d': Core<Mmds>)
    requires |SessionCode(MmdC22(id), ops)| < MAX_CODE && |SessionCode(Phy(id), ops)| < MAX_CODE
    requires C45Id(id) && forall k | 0 <= k < |ops| :: ops[k].reg < 0x1_0000
    requires c.dev.mmds == c'.dev && c.out == c'.out
    ensures Leads(SessionCode(MmdC22(id), ops), WindowBus(PortAddr(id)), c, d)
    ensures Leads(SessionCode(Phy(id), ops), DirectBus(C45Device(PortAddr(id))), c', d')
    ensures d.dev.mmds == d'.dev && d.out == d'.out
  {
    hide Leads, SessionCode, Implements, PhyReadCode;
    var b, b' := WindowBinding(id), PhyBinding(id, C45Device(PortAddr(id)));
    WindowImplements(id);
    PhyImplements(id, C45Device(PortAddr(id)));
    forall m: Mmds, r: u32 ensures b.load(m, r) == b'.load(m, r) {
      SameOperations(id, m, r, 0);
    }
    forall m: Mmds, r: u32, v: u16 ensures b.store(m, r, v) == b'.store(m, r, v) {
      SameOperations(id, m, r, v);
    }
    d, d' := SessionsRefine(b, b', ops, c, c');
  }
}
