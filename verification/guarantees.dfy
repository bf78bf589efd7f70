/** What the manual promises for `raw`, spelled out device by device, and one promise
    followed through all layers: generated, validated, run and delivered. */
module Guarantees {
  import opened Words
  import opened Machine
  import opened Fragment
  import opened Drivers
  import opened Operations
  import opened Bindings
  import opened Devices
  import opened Meaning
  import PagedPhy
  import MmdWindow
  import MultiChip
  import opened Transfer
  import opened Kernel
  import Reference
  import Validator

  // Every masked write leaves (old & MASK) | DATA in its target, said bit by bit.

  /** A Clause 22 or Clause 45 register on a bus full of storing registers. */
  lemma PhyMaskedWrite(id: u16, reg: u16, val: u16, mask: u16, c: Core<Memory>) returns (d: Core<Memory>, v: u16)
    ensures Leads(RawCode(Phy(id), reg, Data(val, mask)), DirectBus(StorageDevice()), c, d) && d.out == c.out
    ensures var key := (Reference.Target(id), reg);
            d.dev == c.dev[key := v] 
            && forall i: nat :: Bit(v, i) <==> Bit(val, i) || (Bit(Lookup(c.dev, key), i) && Bit(mask, i))
  {
    hide Leads, RawCode, Implements, Storage, Bit;
    PhyImplements(id, StorageDevice());
    PhyStorage(id);
    Reference.Targets(id);
    var b := PhyBinding(id, StorageDevice());
    assert Ready(b, reg, c) && Writable(b, reg, c) && Lower(reg) == reg;
    d, v := RawWriteOnStorage(b, reg, val, mask, c);
  }

  /** An MMD register over Clause 22: no other MMD register changes. */
  lemma MmdC22MaskedWrite(id: u16, reg: u16, val: u16, mask: u16, c: Core<MmdWindow.Window>) returns (d: Core<MmdWindow.Window>, v: u16)
    ensures Leads(RawCode(MmdC22(id), reg, Data(val, mask)), MmdWindow.WindowBus(id / 0x20 % 0x20), c, d) && d.out == c.out
    ensures var key: (u16, u16) := (id % 0x20, reg);
            d.dev.mmds == c.dev.mmds[key := v] 
            && forall i: nat :: Bit(v, i) <==> Bit(val, i) || (Bit(Lookup(c.dev.mmds, key), i) && Bit(mask, i))
  {
    hide Leads, RawCode, Implements, Storage, Bit;
    MmdWindow.WindowImplements(id);
    MmdWindow.WindowStorage(id);
    var b := MmdWindow.WindowBinding(id);
    assert Ready(b, reg, c) && Writable(b, reg, c) && Lower(reg) == reg;
    d, v := RawWriteOnStorage(b, reg, val, mask, c);
  }

  /** A paged register other than the page register: no register of any page changes
      but the target, and the page register ends as it began. */
  lemma PagedMaskedWrite(k: PagedPhy.Config, reg: u32, val: u16, mask: u16, c: Core<PagedPhy.Phy>) returns (d: Core<PagedPhy.Phy>, v: u16)
    requires k.pageReg < 0x100 && reg % 0x20 != k.pageReg
    ensures Leads(RawCode(Paged(k.id, k.pageReg), reg, Data(val, mask)), PagedPhy.PagedBus(k), c, d) && d.out == c.out
    ensures var key: (u16, u16) := (k.bank(reg / 0x1_0000 % 0x100), reg % 0x20);
            d.dev.page == c.dev.page
            && d.dev.banks == c.dev.banks[key := v] 
            && forall i: nat :: Bit(v, i) <==> Bit(val, i) || (Bit(Lookup(c.dev.banks, key), i) && Bit(mask, i))
  {
    hide Leads, RawCode, Implements, Storage, Bit;
    PagedPhy.PagedImplements(k);
    PagedPhy.PagedStorage(k);
    var b := PagedPhy.PagedBinding(k);
    assert Ready(b, reg, c) && Writable(b, reg, c);
    d, v := RawWriteOnStorage(b, reg, val, mask, c);
  }

  /** A switch register in multi-chip mode, for any busy times: no other register of
      the switch changes and the front end is idle again. */
  lemma MvlsMaskedWrite(id: u8, reg: u32, val: u16, mask: u16, c: Core<MultiChip.Front<Memory>>)
      returns (d: Core<MultiChip.Front<Memory>>, v: u16)
    requires id != 0 && c.dev.busy == 0 && reg < 0x20_0000 && reg % 0x1_0000 < 0x20
    ensures Leads(RawCode(Mvls(id), reg, Data(val, mask)), MultiChip.MultiBus(id, StorageDevice()), c, d) && d.out == c.out
    ensures var key: (Addr, u16) := (C22(reg / 0x1_0000), reg % 0x1_0000);
            d.dev.busy == 0 && d.dev.inner == c.dev.inner[key := v] 
            && forall i: nat :: Bit(v, i) <==> Bit(val, i) || (Bit(Lookup(c.dev.inner, key), i) && Bit(mask, i))
  {
    hide Leads, RawCode, Implements, Storage, Bit;
    MultiChip.MultiImplements(id, StorageDevice());
    MultiChip.SwitchStorage(id);
    var b := MultiChip.MultiBinding(id, StorageDevice());
    assert Ready(b, reg, c) && Writable(b, reg, c);
    d, v := RawWriteOnStorage(b, reg, val, mask, c);
  }

  /** `raw REG` from the command line to the socket: the deadline may be missed, but
      if it is not, the receiver gets exactly the value of the register, no error and
      the end marker, and the device is as one load leaves it. */
  method RawReadTransfer<S(!new), A>(b: Binding<S, A>, reg: u32, capacity: nat, dev: S, budget: nat)
      returns (xfer: Xfer, dev': S)
    requires Implements(b) && b.readable(reg) && b.ok(dev) && capacity >= 11
    ensures var o := Run(RawCode(b.drv, reg, ReadOnly), 0, Core(ZERO_REGS, dev, []), b.bus, budget);
            var l := b.load(b.abs(dev), reg);
            (o.verdict == TimedOut && dev' == o.core.dev)
            || (Delivered(xfer.sent, [l.val], 0) && b.ok(dev') && b.abs(dev') == l.next)
  {
    hide Delivered, Leads, RawCode, Implements, Run;
    ghost var c := Core(ZERO_REGS, dev, []);
    ghost var d := RawReadMeaning(b, reg, c);
    ghost var n := LeadsMeaning(RawCode(b.drv, reg, ReadOnly), b.bus, c, d);
    Validator.RawAccepted(b.drv, reg, ReadOnly);
    var prog := RawExec(b.drv, reg, ReadOnly);
    var code := prog.insns;
    var err;
    ghost var ret, out, path;
    err, xfer, dev', ret, out, path := CmdXfer(capacity, code, b.bus, dev, budget);
    assert [] + [b.load(b.abs(dev), reg).val] == [b.load(b.abs(dev), reg).val];
  }
}
