/** Paged PHYs: src/mdio/paged-phy.c. One register selects which bank the other
    registers belong to; the driver switches, accesses, and switches back. */
module PagedPhy {
  import opened Words
  import opened Isa
  import opened Machine
  import opened Fragment
  import opened Drivers
  import opened Bindings
  import opened Devices

  /** What happens on the device apart from reading the page register. */
  datatype Touch = Select(page: u16) | Fetch(page: u16, reg: u16) | Deposit(page: u16, reg: u16)

  /** `page` is the full 16-bit content of the page register. */
  datatype Phy = Phy(page: u16, banks: map<(u16, u16), u16>, log: seq<Touch>)

  /** What the user of the device can tell apart. */
  datatype View = View(page: u16, banks: map<(u16, u16), u16>)

  function ViewOf(s: Phy): View { View(s.page, s.banks) }

  /** Where the PHY sits, which register selects the page, and which bank a page
      register value selects: some parts decode only the low bits. */
  datatype Config = Config(id: u16, pageReg: u16, bank: u16 -> u16)

  function PhyLoad(k: Config, s: Phy, reg: u16): Loaded<Phy> {
    if reg == k.pageReg then Loaded(s, s.page)
    else Loaded(s.(log := s.log + [Fetch(s.page, reg)]), Lookup(s.banks, (k.bank(s.page), reg)))
  }

  function PhyStore(k: Config, s: Phy, reg: u16, v: u16): Phy {
    if reg == k.pageReg then s.(page := v, log := s.log + [Select(v)])
    else s.(banks := s.banks[(k.bank(s.page), reg) := v], log := s.log + [Deposit(s.page, reg)])
  }

  function PagedBus(k: Config): Bus<Phy> {
    Bus(
      (s: Phy, a: Addr, r: u16) =>
        if a == AddrOf(k.id) then var l := PhyLoad(k, s, r); Reply(l.val, l.next) else Reply(NOBODY, s),
      (s: Phy, a: Addr, r: u16, v: u16) =>
        if a == AddrOf(k.id) then Reply(0, PhyStore(k, s, r, v)) else Reply(0, s))
  }

  lemma BusReads(k: Config, s: Phy, reg: u16)
    ensures PagedBus(k).read(s, AddrOf(k.id), reg) == Reply(PhyLoad(k, s, reg).val, PhyLoad(k, s, reg).next)
  {
  }

  lemma BusWrites(k: Config, s: Phy, reg: u16, v: u16)
    ensures PagedBus(k).write(s, AddrOf(k.id), reg, v) == Reply(0, PhyStore(k, s, reg, v))
  {
  }

  /** The device while `page` is selected on behalf of the program. */
  function Enter(s: Phy, page: u16): Phy {
    if s.page == page then s else s.(page := page, log := s.log + [Select(page)])
  }

  /** The device after the program put back `saved`. */
  function Leave(s: Phy, page: u16, saved: u16): Phy {
    if saved == page then s else s.(page := saved, log := s.log + [Select(saved)])
  }

  lemma SameTest<S>(page: u8, c: Core<S>, bus: Bus<S>)
    ensures Exec(INSN(OP_JEQ, REG(1), IMM(page), IMM(1)), c, bus) == Go(c, if c.regs[1] == page then 1 else 0)
  {
    hide INSN, REG, IMM;
  }

  lemma EnterMeaning(k: Config, page: u8, c: Core<Phy>) returns (d: Core<Phy>)
    requires k.pageReg < 0x100
    ensures Leads(PagedEnterCode(k.id, k.pageReg, page), PagedBus(k), c, d)
    ensures d == Core(c.regs[1 := c.dev.page], Enter(c.dev, page), c.out)
  {
    hide Exec, INSN, Leads, PagedBus, REG;
    var bus, pr := PagedBus(k), k.pageReg;
    var read := INSN(OP_READ, IMM(k.id), IMM(pr), REG(1));
    var same := INSN(OP_JEQ, REG(1), IMM(page), IMM(1));
    var put := INSN(OP_WRITE, IMM(k.id), IMM(pr), IMM(page));
    var r := Core(c.regs[1 := c.dev.page], c.dev, c.out);
    BusReads(k, c.dev, pr);
    DoRead(k.id, pr, 1, bus, c, c.dev.page, c.dev);
    LeadsOne(read, bus, c, r);
    d := SwitchMeaning(k, page, r);
    InsnFields(k, page);
    StraightLine([read]);
    SkipClosed(same, put);
    LeadsSeq([read], [same, put], bus, c, r, d);
  }

  lemma InsnFields(k: Config, page: u8)
    ensures !IsJump(INSN(OP_READ, IMM(k.id), IMM(k.pageReg), REG(1)))
    ensures !IsJump(INSN(OP_WRITE, IMM(k.id), IMM(k.pageReg), IMM(page)))
    ensures INSN(OP_JEQ, REG(1), IMM(page), IMM(1)).arg2 == IMM(1)
  {
  }

  /** Write the requested page to the page register, if they differ. */
  lemma SwitchMeaning(k: Config, page: u8, c: Core<Phy>) returns (d: Core<Phy>)
    requires k.pageReg < 0x100 && c.regs[1] == c.dev.page
    ensures Leads([INSN(OP_JEQ, REG(1), IMM(page), IMM(1)), INSN(OP_WRITE, IMM(k.id), IMM(k.pageReg), IMM(page))],
                  PagedBus(k), c, d)
    ensures d == c.(dev := Enter(c.dev, page))
  {
    hide Exec, INSN, Leads, PagedBus, REG;
    var bus, pr := PagedBus(k), k.pageReg;
    var same := INSN(OP_JEQ, REG(1), IMM(page), IMM(1));
    var put := INSN(OP_WRITE, IMM(k.id), IMM(pr), IMM(page));
    d := c.(dev := Enter(c.dev, page));
    SameTest(page, c, bus);
    if c.dev.page == page {
      LeadsSkip(same, put, bus, c);
    } else {
      BusWrites(k, c.dev, pr, page);
      DoWrite(k.id, pr, IMM(page), bus, c, page, d.dev);
      LeadsNoSkip(same, put, bus, c, d);
    }
  }

  lemma LeaveMeaning(k: Config, page: u8, c: Core<Phy>) returns (d: Core<Phy>)
    requires k.pageReg < 0x100
    ensures Leads(PagedLeaveCode(k.id, k.pageReg, page), PagedBus(k), c, d)
    ensures d == c.(dev := Leave(c.dev, page, c.regs[1]))
  {
    var bus, pr := PagedBus(k), k.pageReg;
    var same := INSN(OP_JEQ, REG(1), IMM(page), IMM(1));
    var put := INSN(OP_WRITE, IMM(k.id), IMM(pr), REG(1));
    d := c.(dev := Leave(c.dev, page, c.regs[1]));
    SameTest(page, c, bus);
    hide Exec, INSN;
    if c.regs[1] == page {
      assert Exec(same, c, bus) == Go(c, 1);
      LeadsSkip(same, put, bus, c);
    } else {
      assert Exec(same, c, bus) == Go(c, 0);
      BusWrites(k, c.dev, pr, c.regs[1]);
      DoWrite(k.id, pr, REG(1), bus, c, c.regs[1], d.dev);
      LeadsNoSkip(same, put, bus, c, d);
    }
  }

  // ---- one access ----------------------------------------------------------

  /** The device during and after an access to `reg` that starts in `s`. */
  function AfterLoad(k: Config, s: Phy, reg: u32): Loaded<Phy> {
    var l := PhyLoad(k, Enter(s, PageOf(reg)), PageReg(reg));
    Loaded(Leave(l.next, PageOf(reg), s.page), l.val)
  }

  function AfterStore(k: Config, s: Phy, reg: u32, v: u16): Phy {
    Leave(PhyStore(k, Enter(s, PageOf(reg)), PageReg(reg), v), PageOf(reg), s.page)
  }

  lemma ReadMeaning(k: Config, reg: u32, c: Core<Phy>) returns (d: Core<Phy>)
    requires k.pageReg < 0x100
    ensures Leads(PagedReadCode(k.id, k.pageReg, reg), PagedBus(k), c, d)
    ensures var l := AfterLoad(k, c.dev, reg);
            d == Core(c.regs[1 := c.dev.page][0 := l.val], l.next, c.out)
  {
    hide Leads, Exec, PagedEnterCode, PagedLeaveCode, INSN;
    var page, r, bus := PageOf(reg), PageReg(reg), PagedBus(k);
    var read := INSN(OP_READ, IMM(k.id), IMM(r), REG(0));
    var e := EnterMeaning(k, page, c);
    var l := PhyLoad(k, e.dev, r);
    var f := Core(e.regs[0 := l.val], l.next, e.out);
    BusReads(k, e.dev, r);
    DoRead(k.id, r, 0, bus, e, l.val, l.next);
    d := LeaveMeaning(k, page, f);
    PagedClosed(k.id, k.pageReg, page);
    LeadsThen(PagedEnterCode(k.id, k.pageReg, page), read, bus, c, e, f);
    LeadsSeq(PagedEnterCode(k.id, k.pageReg, page) + [read], PagedLeaveCode(k.id, k.pageReg, page), bus, c, f, d);
  }

  lemma WriteMeaning(k: Config, reg: u32, arg: u18, c: Core<Phy>) returns (d: Core<Phy>)
    requires k.pageReg < 0x100 && Operand(Paged(k.id, k.pageReg), arg)
    ensures Leads(PagedWriteCode(k.id, k.pageReg, reg, arg), PagedBus(k), c, d)
    ensures var v := OperandValue(Paged(k.id, k.pageReg), arg, c.regs);
            d == Core(c.regs[1 := c.dev.page], AfterStore(k, c.dev, reg, v), c.out)
  {
    hide Leads, Exec, PagedEnterCode, PagedLeaveCode, INSN;
    var page, r, bus := PageOf(reg), PageReg(reg), PagedBus(k);
    var v := OperandValue(Paged(k.id, k.pageReg), arg, c.regs);
    var write := INSN(OP_WRITE, IMM(k.id), IMM(r), arg);
    var e := EnterMeaning(k, page, c);
    var f := e.(dev := PhyStore(k, e.dev, r, v));
    BusWrites(k, e.dev, r, v);
    DoWrite(k.id, r, arg, bus, e, v, f.dev);
    d := LeaveMeaning(k, page, f);
    PagedClosed(k.id, k.pageReg, page);
    LeadsThen(PagedEnterCode(k.id, k.pageReg, page), write, bus, c, e, f);
    LeadsSeq(PagedEnterCode(k.id, k.pageReg, page) + [write], PagedLeaveCode(k.id, k.pageReg, page), bus, c, f, d);
  }

  /** What an access may leave in the log: the page register is written not at all,
      or once to select the requested page and once with its former content, and
      the one register access in between happens on the requested page. */
  function Bracket(saved: u16, page: u16, touch: Touch): seq<Touch> {
    if saved == page then [touch] else [Select(page), touch, Select(saved)]
  }

  /** A read restores all 16 bits of the page register and touches nothing but the
      requested register of the requested page. */
  lemma ReadRestoresPage(k: Config, reg: u32, c: Core<Phy>, d: Core<Phy>)
    requires k.pageReg < 0x100 && PageReg(reg) != k.pageReg
    requires Leads(PagedReadCode(k.id, k.pageReg, reg), PagedBus(k), c, d)
    ensures ViewOf(d.dev) == ViewOf(c.dev)
    ensures d.dev.log == c.dev.log + Bracket(c.dev.page, PageOf(reg), Fetch(PageOf(reg), PageReg(reg)))
    ensures d.regs[0] == Lookup(c.dev.banks, (k.bank(PageOf(reg)), PageReg(reg)))
  {
    var e := ReadMeaning(k, reg, c);
    LeadsUnique(PagedReadCode(k.id, k.pageReg, reg), PagedBus(k), c, d, e);
  }

  lemma WriteRestoresPage(k: Config, reg: u32, arg: u18, c: Core<Phy>, d: Core<Phy>)
    requires k.pageReg < 0x100 && PageReg(reg) != k.pageReg && Operand(Paged(k.id, k.pageReg), arg)
    requires Leads(PagedWriteCode(k.id, k.pageReg, reg, arg), PagedBus(k), c, d)
    ensures var v := OperandValue(Paged(k.id, k.pageReg), arg, c.regs);
            ViewOf(d.dev) == View(c.dev.page, c.dev.banks[(k.bank(PageOf(reg)), PageReg(reg)) := v])
    ensures d.dev.log == c.dev.log + Bracket(c.dev.page, PageOf(reg), Deposit(PageOf(reg), PageReg(reg)))
  {
    hide PagedWriteCode;
    var e := WriteMeaning(k, reg, arg, c);
    LeadsUnique(PagedWriteCode(k.id, k.pageReg, reg, arg), PagedBus(k), c, d, e);
  }

  /** Writing the page register itself through the driver: the restore that follows
      overwrites the value unless no switch was needed. So the register keeps the value
      written exactly if the page was already selected or the value is what the
      register held before. */
  lemma WritePageRegister(k: Config, reg: u32, arg: u18, c: Core<Phy>, d: Core<Phy>)
    requires k.pageReg < 0x100 && PageReg(reg) == k.pageReg && Operand(Paged(k.id, k.pageReg), arg)
    requires Leads(PagedWriteCode(k.id, k.pageReg, reg, arg), PagedBus(k), c, d)
    ensures var v := OperandValue(Paged(k.id, k.pageReg), arg, c.regs);
            d.dev.banks == c.dev.banks
            && d.dev.page == (if c.dev.page == PageOf(reg) then v else c.dev.page)
            && (d.dev.page == v <==> c.dev.page == PageOf(reg) || v == c.dev.page)
            && (d.dev.page == c.dev.page <==> c.dev.page != PageOf(reg) || v == c.dev.page)
  {
    hide PagedWriteCode;
    var e := WriteMeaning(k, reg, arg, c);
    LeadsUnique(PagedWriteCode(k.id, k.pageReg, reg, arg), PagedBus(k), c, d, e);
  }

  // ---- as a binding --------------------------------------------------------

  function PagedLoad(k: Config, v: View, reg: u32): Loaded<View> {
    var page, r := reg / 0x1_0000 % 0x100, reg % 0x20;
    Loaded(v, if r == k.pageReg then page else Lookup(v.banks, (k.bank(page), r)))
  }

  function PagedStore(k: Config, v: View, reg: u32, x: u16): View {
    v.(banks := v.banks[(k.bank(reg / 0x1_0000 % 0x100), reg % 0x20) := x])
  }

  function PagedBinding(k: Config): Binding<Phy, View>
    requires k.pageReg < 0x100
  {
    Binding(
      Paged(k.id, k.pageReg), PagedBus(k), (s: Phy) => true, (s: Phy) => ViewOf(s),
      (reg: u32) => true, (reg: u32) => reg % 0x20 != k.pageReg,
      (v: View, reg: u32) => PagedLoad(k, v, reg),
      (v: View, reg: u32, x: u16) => PagedStore(k, v, reg, x))
  }

  lemma PagedReads(k: Config, reg: u32, c: Core<Phy>) returns (d: Core<Phy>)
    requires k.pageReg < 0x100
    ensures ReadStep(PagedBinding(k), reg, c, d)
  {
    hide Leads, PagedReadCode;
    d := ReadMeaning(k, reg, c);
  }

  lemma PagedWrites(k: Config, reg: u32, arg: u18, c: Core<Phy>) returns (d: Core<Phy>)
    requires k.pageReg < 0x100 && PageReg(reg) != k.pageReg && Operand(Paged(k.id, k.pageReg), arg)
    ensures WriteStep(PagedBinding(k), reg, arg, c, d)
  {
    hide Leads, PagedWriteCode;
    d := WriteMeaning(k, reg, arg, c);
  }

  lemma PagedImplements(k: Config)
    requires k.pageReg < 0x100
    ensures Implements(PagedBinding(k))
  {
    var b := PagedBinding(k);
    hide ReadStep, WriteStep;
    forall reg: u32, c: Core<Phy> | Ready(b, reg, c) ensures exists d: Core<Phy> :: ReadStep(b, reg, c, d) {
      var d := PagedReads(k, reg, c);
    }
    forall reg: u32, arg: u18, c: Core<Phy> | Writable(b, reg, c) && Operand(b.drv, arg)
      ensures exists d: Core<Phy> :: WriteStep(b, reg, arg, c, d)
    {
      var d := PagedWrites(k, reg, arg, c);
    }
  }

  lemma PagedStorage(k: Config)
    requires k.pageReg < 0x100
    ensures Storage(PagedBinding(k))
  {
    var b := PagedBinding(k);
    forall v: View, r: u32, x: u16 | b.writable(r) ensures b.load(b.store(v, r, x), r).val == x {
      assert b.store(v, r, x) == PagedStore(k, v, r, x);
    }
  }
}
