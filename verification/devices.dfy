/** Devices with a register file that is addressed directly: src/mdio/phy.c. */
module Devices {
  import opened Words
  import opened Isa
  import opened Machine
  import opened Fragment
  import opened Drivers
  import opened Bindings

  /** Anything that answers register accesses and never fails. The answers may
      depend on the past and accesses may have side effects. */
  datatype Device<!T> = Device(load: (T, Addr, u16) -> Loaded<T>, store: (T, Addr, u16, u16) -> T)

  function DirectBus<T>(dev: Device<T>): Bus<T> {
    Bus(
      (s: T, a: Addr, r: u16) => var l := dev.load(s, a, r); Reply(l.val, l.next),
      (s: T, a: Addr, r: u16, v: u16) => Reply(0, dev.store(s, a, r, v)))
  }

  /** An unanswered read leaves the data line pulled up. */
  const NOBODY: u16 := 0xffff

  function Lookup<K>(m: map<K, u16>, k: K): u16 { if k in m then m[k] else NOBODY }

  type Memory = map<(Addr, u16), u16>

  /** Registers that only store. */
  function StorageDevice(): Device<Memory> {
    Device(
      (m: Memory, a: Addr, r: u16) => Loaded(m, Lookup(m, (a, r))),
      (m: Memory, a: Addr, r: u16, v: u16) => m[(a, r) := v])
  }

  /** The phy driver on any device, with a Clause 22 or a Clause 45 id. */
  function PhyBinding<T>(id: u16, dev: Device<T>): Binding<T, T> {
    Binding(
      Phy(id), DirectBus(dev), (s: T) => true, (s: T) => s,
      (reg: u32) => reg < 0x1_0000, (reg: u32) => reg < 0x1_0000,
      (s: T, reg: u32) => dev.load(s, AddrOf(id), Lower(reg)),
      (s: T, reg: u32, v: u16) => dev.store(s, AddrOf(id), Lower(reg), v))
  }

  lemma PhyReads<T>(id: u16, dev: Device<T>, reg: u32, c: Core<T>) returns (d: Core<T>)
    requires reg < 0x1_0000
    ensures ReadStep(PhyBinding(id, dev), reg, c, d)
  {
    var b := PhyBinding(id, dev);
    assert Lower(reg) == reg;
    var l := dev.load(c.dev, AddrOf(id), reg);
    assert b.bus.read(c.dev, AddrOf(id), reg) == Reply(l.val, l.next);
    DoRead(id, reg, 0, b.bus, c, l.val, l.next);
    hide Exec, INSN;
    d := Core(c.regs[0 := l.val], l.next, c.out);
    LeadsOne(INSN(OP_READ, IMM(id), IMM(reg), REG(0)), b.bus, c, d);
  }

  lemma PhyWrites<T>(id: u16, dev: Device<T>, reg: u32, arg: u18, c: Core<T>) returns (d: Core<T>)
    requires reg < 0x1_0000 && Operand(Phy(id), arg)
    ensures WriteStep(PhyBinding(id, dev), reg, arg, c, d)
  {
    var b := PhyBinding(id, dev);
    var v := OperandValue(b.drv, arg, c.regs);
    assert Lower(reg) == reg;
    var next := dev.store(c.dev, AddrOf(id), reg, v);
    assert b.bus.write(c.dev, AddrOf(id), reg, v) == Reply(0, next);
    DoWrite(id, reg, arg, b.bus, c, v, next);
    hide Exec, INSN;
    d := c.(dev := next);
    LeadsOne(INSN(OP_WRITE, IMM(id), IMM(reg), arg), b.bus, c, d);
  }

  lemma PhyImplements<T(!new)>(id: u16, dev: Device<T>)
    ensures Implements(PhyBinding(id, dev))
  {
    var b := PhyBinding(id, dev);
    hide ReadStep, WriteStep;
    forall reg: u32, c: Core<T> | Ready(b, reg, c) ensures exists d: Core<T> :: ReadStep(b, reg, c, d) {
      var d := PhyReads(id, dev, reg, c);
    }
    forall reg: u32, arg: u18, c: Core<T> | Writable(b, reg, c) && Operand(b.drv, arg)
      ensures exists d: Core<T> :: WriteStep(b, reg, arg, c, d)
    {
      var d := PhyWrites(id, dev, reg, arg, c);
    }
  }

  lemma PhyStorage(id: u16)
    ensures Storage(PhyBinding(id, StorageDevice()))
  {
    var b := PhyBinding(id, StorageDevice());
    forall m: Memory, r: u32, v: u16 | b.writable(r) ensures b.load(b.store(m, r, v), r).val == v {
      assert b.store(m, r, v) == m[(AddrOf(id), Lower(r)) := v];
    }
  }
}
