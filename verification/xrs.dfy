/** Arrow/Flexibilis XRS700x: src/mdio/xrs.c. A 32-bit register space behind two
    address registers and a data register. */
module XrsSwitch {
  import opened Words
  import opened Isa
  import opened Machine
  import opened Fragment
  import opened Drivers
  import opened Operations
  import opened Bindings
  import opened Devices
  import opened Meaning

  type Space = map<u32, u16>

  datatype Xrs = Xrs(iba1: u16, ibd: u16, mem: Space)

  /** IBA1, IBD and IBA0 in this order. Writing IBA0 starts the access: bit 0 tells a write from a read. */
  function XrsStore(s: Xrs, r: u16, v: u16): Xrs {
    if r == 0x11 then s.(iba1 := v)
    else if r == 0x14 then s.(ibd := v)
    else if r == 0x10 then
      var at := s.iba1 as int * 0x1_0000 + v - v % 2;
      if v % 2 == 1 then s.(mem := s.mem[at := s.ibd]) else s.(ibd := Lookup(s.mem, at))
    else s
  }

  function XrsLoad(s: Xrs, r: u16): u16 { if r == 0x14 then s.ibd else NOBODY }

  function XrsBus(id: u16): Bus<Xrs> {
    Bus(
      (s: Xrs, a: Addr, r: u16) => Reply(if a == AddrOf(id) then XrsLoad(s, r) else NOBODY, s),
      (s: Xrs, a: Addr, r: u16, v: u16) => Reply(0, if a == AddrOf(id) then XrsStore(s, r, v) else s))
  }

  function Even(reg: u32): u32 { reg - reg % 2 }

  function SpaceLoad(m: Space, reg: u32): Loaded<Space> { Loaded(m, Lookup(m, Even(reg))) }

  function XrsBinding(id: u16): Binding<Xrs, Space> {
    Binding(
      Driver.Xrs(id), XrsBus(id), (s: Xrs) => true, (s: Xrs) => s.mem,
      (reg: u32) => true, (reg: u32) => true,
      (m: Space, reg: u32) => SpaceLoad(m, reg),
      (m: Space, reg: u32, v: u16) => m[Even(reg) := v])
  }

  lemma Put(id: u16, r: u16, v: u16, c: Core<Xrs>)
    ensures Exec(INSN(OP_WRITE, IMM(id), IMM(r), IMM(v)), c, XrsBus(id)) == Go(c.(dev := XrsStore(c.dev, r, v)), 0)
  {
    assert XrsBus(id).write(c.dev, AddrOf(id), r, v) == Reply(0, XrsStore(c.dev, r, v));
    DoWrite(id, r, IMM(v), XrsBus(id), c, v, XrsStore(c.dev, r, v));
  }

  lemma ReadsData(id: u16, s: Xrs)
    ensures XrsBus(id).read(s, AddrOf(id), XRS_IBD) == Reply(s.ibd, s)
  {
    assert XrsLoad(s, XRS_IBD) == s.ibd;
  }

  lemma SplitAddress(reg: u32)
    ensures Upper(reg) as int * 0x1_0000 + EvenLow(reg) == Even(reg) && EvenLow(reg) % 2 == 0 && EvenLow(reg) <= 0xfffe
  {
    SameParity(Upper(reg), Lower(reg));
  }

  lemma SameParity(hi: nat, lo: nat)
    ensures (hi * 0x1_0000 + lo) % 2 == lo % 2
  {
    QuotientUnique(hi * 0x1_0000 + lo, 2, hi * 0x8000 + lo / 2, lo % 2);
  }

  lemma XrsReadStates(s: Xrs, reg: u32)
    ensures var t := XrsStore(XrsStore(s, XRS_IBA1, Upper(reg)), XRS_IBA0, EvenLow(reg));
            t.mem == s.mem && t.ibd == SpaceLoad(s.mem, reg).val
  {
    SplitAddress(reg);
  }

  lemma XrsWriteStates(s: Xrs, reg: u32, v: u16)
    ensures EvenLow(reg) < 0xffff
    ensures var t := XrsStore(XrsStore(XrsStore(s, XRS_IBD, v), XRS_IBA1, Upper(reg)), XRS_IBA0, EvenLow(reg) + 1);
            t.mem == s.mem[Even(reg) := v]
  {
    SplitAddress(reg);
  }

  lemma XrsReads(id: u16, reg: u32, c: Core<Xrs>) returns (d: Core<Xrs>)
    ensures ReadStep(XrsBinding(id), reg, c, d)
  {
    XrsReadStates(c.dev, reg);
    hide Exec, INSN, Leads, Closed, IMM, XrsStore, XrsBus, REG;
    var bus := XrsBus(id);
    var i1 := INSN(OP_WRITE, IMM(id), IMM(XRS_IBA1), IMM(Upper(reg)));
    var i0 := INSN(OP_WRITE, IMM(id), IMM(XRS_IBA0), IMM(EvenLow(reg)));
    var e := c.(dev := XrsStore(c.dev, XRS_IBA1, Upper(reg)));
    var f := e.(dev := XrsStore(e.dev, XRS_IBA0, EvenLow(reg)));
    d := f.(regs := f.regs[0 := f.dev.ibd]);
    Put(id, XRS_IBA1, Upper(reg), c);
    Put(id, XRS_IBA0, EvenLow(reg), e);
    ReadsData(id, f.dev);
    DoRead(id, XRS_IBD, 0, bus, f, f.dev.ibd, f.dev);
    StraightLine([i1]);
    LeadsOne(i1, bus, c, e);
    LeadsThen([i1], i0, bus, c, e, f);
    LeadsThen([i1] + [i0], INSN(OP_READ, IMM(id), IMM(XRS_IBD), REG(0)), bus, c, f, d);
  }

  /** What the xrs write really stores: its operand's low 16 bits, whatever the
      operand's mode. */
  lemma XrsWriteRun(id: u16, reg: u32, arg: u18, c: Core<Xrs>) returns (d: Core<Xrs>)
    ensures Leads(XrsWriteCode(id, reg, arg), XrsBus(id), c, d)
    ensures d.dev.mem == c.dev.mem[Even(reg) := Payload(arg)] && d.out == c.out && d.regs == c.regs
  {
    XrsWriteStates(c.dev, reg, Payload(arg));
    ImmTwice(arg);
    hide Exec, INSN, Leads, Closed, IMM, XrsStore, XrsBus;
    var bus, v := XrsBus(id), Payload(arg);
    var i0 := INSN(OP_WRITE, IMM(id), IMM(XRS_IBD), IMM(v));
    var i1 := INSN(OP_WRITE, IMM(id), IMM(XRS_IBA1), IMM(Upper(reg)));
    var i2 := INSN(OP_WRITE, IMM(id), IMM(XRS_IBA0), IMM(EvenLow(reg) + 1));
    var e := c.(dev := XrsStore(c.dev, XRS_IBD, v));
    var f := e.(dev := XrsStore(e.dev, XRS_IBA1, Upper(reg)));
    d := f.(dev := XrsStore(f.dev, XRS_IBA0, EvenLow(reg) + 1));
    Put(id, XRS_IBD, v, c);
    Put(id, XRS_IBA1, Upper(reg), e);
    Put(id, XRS_IBA0, EvenLow(reg) + 1, f);
    StraightLine([i0]);
    LeadsOne(i0, bus, c, e);
    LeadsThen([i0], i1, bus, c, e, f);
    LeadsThen([i0] + [i1], i2, bus, c, f, d);
  }

  lemma ImmTwice(arg: u18)
    ensures IMM(arg) == IMM(Payload(arg))
  {
  }

  lemma XrsWrites(id: u16, reg: u32, arg: u18, c: Core<Xrs>) returns (d: Core<Xrs>)
    requires Operand(Driver.Xrs(id), arg)
    ensures WriteStep(XrsBinding(id), reg, arg, c, d)
  {
    hide Leads, XrsWriteCode;
    d := XrsWriteRun(id, reg, arg, c);
  }

  lemma XrsImplements(id: u16)
    ensures Implements(XrsBinding(id))
  {
    var b := XrsBinding(id);
    hide ReadStep, WriteStep;
    forall reg: u32, c: Core<Xrs> | Ready(b, reg, c) ensures exists d: Core<Xrs> :: ReadStep(b, reg, c, d) {
      var d := XrsReads(id, reg, c);
    }
    forall reg: u32, arg: u18, c: Core<Xrs> | Writable(b, reg, c) && Operand(b.drv, arg)
      ensures exists d: Core<Xrs> :: WriteStep(b, reg, arg, c, d)
    {
      var d := XrsWrites(id, reg, arg, c);
    }
  }

  lemma XrsStorage(id: u16)
    ensures Storage(XrsBinding(id))
  {
  }

  // ---- the masked forms do not work ----------------------------------------

  /** `raw REG DATA/MASK` on xrs stores 0, the number of the register that holds
      the computed value. */
  lemma MaskedWriteStoresZero(id: u16, reg: u32, val: u16, mask: u16, c: Core<Xrs>) returns (d: Core<Xrs>)
    requires mask != 0
    ensures Leads(RawCode(Driver.Xrs(id), reg, Data(val, mask)), XrsBus(id), c, d)
    ensures d.dev.mem == c.dev.mem[Even(reg) := 0]
  {
    hide ReadCode, XrsWriteCode, Leads, Closed, Implements;
    var b := XrsBinding(id);
    XrsImplements(id);
    assert Ready(b, reg, c);
    var m := Modify(b, reg, val, mask, c);
    d := XrsWriteRun(id, reg, REG(0), m);
    WriteCodeClosed(b.drv, reg, REG(0));
    LeadsSeq(ReadCode(b.drv, reg) + [AndMask(mask)] + [OrValue(val)], WriteCode(b.drv, reg, REG(0)), b.bus, c, m, d);
  }

  /** The intended result of `raw REG DATA/MASK` on the target register. */
  function Intended(m: Space, reg: u32, val: u16, mask: u16): u16 {
    Or16(And16(SpaceLoad(m, reg).val, mask), val)
  }

  ghost predicate WriteIsRight(id: u16, reg: u32, val: u16, mask: u16, c: Core<Xrs>) {
    exists d :: Leads(RawCode(Driver.Xrs(id), reg, Data(val, mask)), XrsBus(id), c, d)
                && d.dev.mem == c.dev.mem[Even(reg) := Intended(c.dev.mem, reg, val, mask)]
  }

  /** So the documented read/mask/write is met on every device state exactly when
      no mask is given. */
  lemma MaskedWriteRightIffNoMask(id: u16, reg: u32, val: u16, mask: u16)
    ensures (forall c: Core<Xrs> :: WriteIsRight(id, reg, val, mask, c)) <==> mask == 0
  {
    hide RawCode, Leads, Implements, Intended;
    if mask == 0 {
      forall c: Core<Xrs> ensures WriteIsRight(id, reg, val, mask, c) {
        var d := UnmaskedWrite(id, reg, val, c);
      }
    } else {
      var m: Space := map[Even(reg) := 0xffff];
      var c := Core(ZERO_REGS, Xrs.Xrs(0, 0, m), []);
      var d := MaskedWriteStoresZero(id, reg, val, mask, c);
      OnesKeepMask(reg, val, mask);
      assert d.dev.mem[Even(reg)] == 0;
      if WriteIsRight(id, reg, val, mask, c) {
        var e :| Leads(RawCode(Driver.Xrs(id), reg, Data(val, mask)), XrsBus(id), c, e)
                 && e.dev.mem == c.dev.mem[Even(reg) := Intended(c.dev.mem, reg, val, mask)];
        LeadsUnique(RawCode(Driver.Xrs(id), reg, Data(val, mask)), XrsBus(id), c, d, e);
      }
      assert !WriteIsRight(id, reg, val, mask, c);
    }
  }

  lemma UnmaskedWrite(id: u16, reg: u32, val: u16, c: Core<Xrs>) returns (d: Core<Xrs>)
    ensures Leads(RawCode(Driver.Xrs(id), reg, Data(val, 0)), XrsBus(id), c, d)
    ensures d.dev.mem == c.dev.mem[Even(reg) := Intended(c.dev.mem, reg, val, 0)]
    ensures WriteIsRight(id, reg, val, 0, c)
  {
    hide RawCode, Leads, Implements;
    var b := XrsBinding(id);
    XrsImplements(id);
    assert Ready(b, reg, c) && Writable(b, reg, c);
    var v;
    d, v := RawWriteMeaning(b, reg, val, 0, c);
    OrZero(val);
  }

  lemma OnesKeepMask(reg: u32, val: u16, mask: u16)
    requires mask != 0
    ensures Intended(map[Even(reg) := 0xffff], reg, val, mask) != 0
  {
    Pow2Values();
    AndOnes(16, mask);
  }

  lemma {:induction false} AllDiffer(id: u16, reg: u32, m: Space, reference: u16, n: nat)
    requires SpaceLoad(m, reg).val != reference
    ensures var (end, vals) := Mismatches(XrsBinding(id), reg, m, reference, n);
            end == m && |vals| == n
    decreases n
  {
    if n > 0 {
      assert XrsBinding(id).load(m, reg) == SpaceLoad(m, reg);
      AllDiffer(id, reg, m, reference, n - 1);
    }
  }

  /** `bench REG DATA` on xrs writes 7, the number of the register holding DATA, and
      then reports all 1000 reads unless DATA happens to be 7. */
  lemma BenchDataReports(id: u16, reg: u32, val: u16, c: Core<Xrs>) returns (d: Core<Xrs>)
    ensures Leads(BenchCode(Driver.Xrs(id), reg, Some(val)), XrsBus(id), c, d)
    ensures d.dev.mem == c.dev.mem[Even(reg) := 7]
    ensures |d.out| == |c.out| + if val == 7 then 0 else 1000
  {
    hide XrsWriteCode, Leads, Closed, Implements, Mismatches, BenchCode, Exec;
    var b := XrsBinding(id);
    var s := SetReg(c, 7, val);
    var set7 := SetReference(val);
    var e := XrsWriteRun(id, reg, REG(7), s);
    SetsReference(val, c, b.bus);
    StraightLine([set7]);
    LeadsOne(set7, b.bus, c, s);
    WriteCodeClosed(b.drv, reg, REG(7));
    LeadsSeq([set7], WriteCode(b.drv, reg, REG(7)), b.bus, c, s, e);
    XrsImplements(id);
    XrsStorage(id);
    d := BenchFrom(b, reg, Some(val), c, e);
    var m := e.dev.mem;
    assert SpaceLoad(m, reg).val == 7;
    if val == 7 {
      NothingDiffers(b, reg, m, 1000);
    } else {
      AllDiffer(id, reg, m, val, 1000);
    }
  }

  // ---- dumps ---------------------------------------------------------------

  lemma {:induction false} LoadsAreEven(id: u16, m: Space, first: nat, count: nat)
    requires first + count <= 0x1_0000_0000
    ensures var (m', vals) := LoadRange(XrsBinding(id), m, first, count);
            m' == m && |vals| == count && forall i | 0 <= i < count :: vals[i] == Lookup(m, Even(first + i))
    decreases count
  {
    if count > 0 {
      LoadsAreEven(id, m, first, count - 1);
    }
  }

  /** The generic dump steps by 1 over a space of even registers: word i is register
      first + i rounded down, so each register in the range shows twice. */
  lemma XrsDump(id: u16, first: nat, count: nat, c: Core<Xrs>) returns (d: Core<Xrs>, vals: seq<u16>)
    requires first + count <= 0x1_0000_0000 && |UnrolledDump(Driver.Xrs(id), first, count)| < MAX_CODE
    ensures Leads(UnrolledDump(Driver.Xrs(id), first, count), XrsBus(id), c, d)
    ensures d.dev.mem == c.dev.mem && d.out == c.out + vals && |vals| == count
    ensures forall i | 0 <= i < count :: vals[i] == Lookup(c.dev.mem, Even(first + i))
    ensures forall i | 0 <= i < count - 1 && (first + i) % 2 == 0 :: vals[i] == vals[i + 1]
  {
    hide Leads, UnrolledDump, Implements, Lookup, LoadRange;
    XrsImplements(id);
    LoadsAreEven(id, c.dev.mem, first, count);
    vals := LoadRange(XrsBinding(id), c.dev.mem, first, count).1;
    d := DumpMeaning(XrsBinding(id), first, count, c);
    forall i | 0 <= i < count - 1 && (first + i) % 2 == 0 ensures vals[i] == vals[i + 1] {
      assert Even(first + i + 1) == Even(first + i);
    }
  }
}
