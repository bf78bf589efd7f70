/** The drivers of src/mdio: what `read`, `write` and `dump` push. Each method
    appends in place, as the source does; the function of the same name with the
    suffix `Code` is the fragment it appends. */
module Drivers {
  import opened Words
  import opened Isa
  import opened Program

  /** A device as set up by `phy_exec`, `mmd_exec`, `mmd_c22_exec`, `mva_exec` and
      `mscc_exec`, `mvls_exec` and `xrs_exec`. Clause 45 devices use the phy driver
      with a Clause 45 id. */
  datatype Driver =
    | Phy(id: u16)
    | MmdC22(id: u16)
    | Paged(id: u16, pageReg: u8)
    | Mvls(id: u16)
    | Xrs(id: u16)

  function Upper(reg: u32): u16 { reg / 0x1_0000 }
  function Lower(reg: u32): u16 { reg % 0x1_0000 }

  // ---- src/mdio/phy.c ------------------------------------------------------

  function PhyReadCode(id: u16, reg: u32): Code {
    [INSN(OP_READ, IMM(id), IMM(reg), REG(0))]
  }

  method PhyRead(prog: Prog, id: u16, reg: u32)
    modifies prog
    ensures prog.insns == old(prog.insns) + PhyReadCode(id, reg)
  {
    prog.Push(INSN(OP_READ, IMM(id), IMM(reg), REG(0)));
  }

  function PhyWriteCode(id: u16, reg: u32, val: u32): Code {
    [INSN(OP_WRITE, IMM(id), IMM(reg), val)]
  }

  method PhyWrite(prog: Prog, id: u16, reg: u32, val: u32)
    modifies prog
    ensures prog.insns == old(prog.insns) + PhyWriteCode(id, reg, val)
  {
    prog.Push(INSN(OP_WRITE, IMM(id), IMM(reg), val));
  }

  function PortAddr(id: u16): u8 { id / 32 % 32 }
  function DevAddr(id: u16): u8 { id % 32 }

  /** The address cycle over registers 13 and 14 that both directions share. */
  function MmdSelectCode(id: u16, reg: u32): Code {
    [INSN(OP_WRITE, IMM(PortAddr(id)), IMM(13), IMM(DevAddr(id)))]
    + [INSN(OP_WRITE, IMM(PortAddr(id)), IMM(14), IMM(reg))]
    + [INSN(OP_WRITE, IMM(PortAddr(id)), IMM(13), IMM(DevAddr(id) + 0x4000))]
  }

  function MmdC22ReadCode(id: u16, reg: u32): Code {
    MmdSelectCode(id, reg) + [INSN(OP_READ, IMM(PortAddr(id)), IMM(14), REG(0))]
  }

  method MmdC22Read(prog: Prog, id: u16, reg: u32)
    modifies prog
    ensures prog.insns == old(prog.insns) + MmdC22ReadCode(id, reg)
  {
    var prtad, devad := PortAddr(id), DevAddr(id);
    var ctrl: u16 := devad;
    prog.Push(INSN(OP_WRITE, IMM(prtad), IMM(13), IMM(ctrl)));
    prog.Push(INSN(OP_WRITE, IMM(prtad), IMM(14), IMM(reg)));
    var data := ctrl + 0x4000;
    prog.Push(INSN(OP_WRITE, IMM(prtad), IMM(13), IMM(data)));
    prog.Push(INSN(OP_READ, IMM(prtad), IMM(14), REG(0)));
  }

  function MmdC22WriteCode(id: u16, reg: u32, val: u32): Code {
    MmdSelectCode(id, reg) + [INSN(OP_WRITE, IMM(PortAddr(id)), IMM(14), val)]
  }

  method MmdC22Write(prog: Prog, id: u16, reg: u32, val: u32)
    modifies prog
    ensures prog.insns == old(prog.insns) + MmdC22WriteCode(id, reg, val)
  {
    var prtad, devad := PortAddr(id), DevAddr(id);
    var ctrl: u16 := devad;
    prog.Push(INSN(OP_WRITE, IMM(prtad), IMM(13), IMM(ctrl)));
    prog.Push(INSN(OP_WRITE, IMM(prtad), IMM(14), IMM(reg)));
    var data := ctrl + 0x4000;
    prog.Push(INSN(OP_WRITE, IMM(prtad), IMM(13), IMM(data)));
    prog.Push(INSN(OP_WRITE, IMM(prtad), IMM(14), val));
  }

  // ---- src/mdio/paged-phy.c ------------------------------------------------

  /** Bits 23:16 of a paged register number; `uint8_t page = reg >> 16`. */
  function PageOf(reg: u32): u8 { Upper(reg) % 0x100 }
  function PageReg(reg: u32): u8 { reg % 0x20 }

  function PagedEnterCode(id: u16, pr: u8, page: u8): Code {
    [INSN(OP_READ, IMM(id), IMM(pr), REG(1))]
    + [INSN(OP_JEQ, REG(1), IMM(page), IMM(1)), INSN(OP_WRITE, IMM(id), IMM(pr), IMM(page))]
  }

  function PagedLeaveCode(id: u16, pr: u8, page: u8): Code {
    [INSN(OP_JEQ, REG(1), IMM(page), IMM(1)), INSN(OP_WRITE, IMM(id), IMM(pr), REG(1))]
  }

  function PagedReadCode(id: u16, pr: u8, reg: u32): Code {
    PagedEnterCode(id, pr, PageOf(reg))
    + [INSN(OP_READ, IMM(id), IMM(PageReg(reg)), REG(0))]
    + PagedLeaveCode(id, pr, PageOf(reg))
  }

  method PagedEnter(prog: Prog, id: u16, pr: u8, page: u8)
    modifies prog
    ensures prog.insns == old(prog.insns) + PagedEnterCode(id, pr, page)
  {
    prog.Push(INSN(OP_READ, IMM(id), IMM(pr), REG(1)));
    prog.Push(INSN(OP_JEQ, REG(1), IMM(page), IMM(1)));
    prog.Push(INSN(OP_WRITE, IMM(id), IMM(pr), IMM(page)));
  }

  method PagedLeave(prog: Prog, id: u16, pr: u8, page: u8)
    modifies prog
    ensures prog.insns == old(prog.insns) + PagedLeaveCode(id, pr, page)
  {
    prog.Push(INSN(OP_JEQ, REG(1), IMM(page), IMM(1)));
    prog.Push(INSN(OP_WRITE, IMM(id), IMM(pr), REG(1)));
  }

  method PagedRead(prog: Prog, id: u16, pr: u8, reg: u32)
    modifies prog
    ensures prog.insns == old(prog.insns) + PagedReadCode(id, pr, reg)
  {
    var page := PageOf(reg);
    PagedEnter(prog, id, pr, page);
    prog.Push(INSN(OP_READ, IMM(id), IMM(PageReg(reg)), REG(0)));
    PagedLeave(prog, id, pr, page);
  }

  function PagedWriteCode(id: u16, pr: u8, reg: u32, val: u32): Code {
    PagedEnterCode(id, pr, PageOf(reg))
    + [INSN(OP_WRITE, IMM(id), IMM(PageReg(reg)), val)]
    + PagedLeaveCode(id, pr, PageOf(reg))
  }

  method PagedWrite(prog: Prog, id: u16, pr: u8, reg: u32, val: u32)
    modifies prog
    ensures prog.insns == old(prog.insns) + PagedWriteCode(id, pr, reg, val)
  {
    var page := PageOf(reg);
    PagedEnter(prog, id, pr, page);
    prog.Push(INSN(OP_WRITE, IMM(id), IMM(PageReg(reg)), val));
    PagedLeave(prog, id, pr, page);
  }

  /** READ and EMIT of the registers first, first + 1, ... (count of them). */
  function SweepCode(id: u16, first: nat, count: nat): Code {
    if count == 0 then []
    else SweepCode(id, first, count - 1)
         + [INSN(OP_READ, IMM(id), IMM(first + count - 1), REG(0))]
         + [INSN(OP_EMIT, REG(0), 0, 0)]
  }

  /** The number of registers in start..end, both included. */
  function RangeSize(first: nat, last: nat): nat { if first <= last then last - first + 1 else 0 }

  function PagedDumpCode(id: u16, pr: u8, start: u32, end: u32): Code {
    PagedEnterCode(id, pr, PageOf(start))
    + SweepCode(id, PageReg(start), RangeSize(PageReg(start), end))
    + PagedLeaveCode(id, pr, PageOf(start))
  }

  /** `range->end` must be below UINT32_MAX, or the 32-bit loop counter never passes it.
      `first` is what is left in `range->start`: the page is masked away. */
  method PagedDump(prog: Prog, id: u16, pr: u8, start: u32, end: u32) returns (first: u32)
    requires end < 0xffff_ffff
    modifies prog
    ensures prog.insns == old(prog.insns) + PagedDumpCode(id, pr, start, end)
    ensures first == start % 0x20
  {
    hide PagedEnterCode, PagedLeaveCode, INSN, IMM, REG, PageOf;
    var page := PageOf(start);
    first := PageReg(start);
    PagedEnter(prog, id, pr, page);
    PagedSweep(prog, id, first, end);
    PagedLeave(prog, id, pr, page);
  }

  lemma SweepMore(id: u16, first: nat, count: nat)
    ensures SweepCode(id, first, count + 1)
            == SweepCode(id, first, count)
               + [INSN(OP_READ, IMM(id), IMM(first + count), REG(0))] + [INSN(OP_EMIT, REG(0), 0, 0)]
  {
  }

  method PagedSweep(prog: Prog, id: u16, first: u32, end: u32)
    requires end < 0xffff_ffff
    modifies prog
    ensures prog.insns == old(prog.insns) + SweepCode(id, first, RangeSize(first, end))
  {
    hide INSN, IMM, REG;
    assert SweepCode(id, first, 0) == [];
    hide SweepCode;
    var reg: u32 := first;
    while reg <= end
      invariant first <= reg && (first <= end ==> reg <= end + 1) && (first > end ==> reg == first)
      invariant prog.insns == old(prog.insns) + SweepCode(id, first, reg - first)
      decreases end + 1 - reg
    {
      prog.Push(INSN(OP_READ, IMM(id), IMM(reg), REG(0)));
      prog.Push(INSN(OP_EMIT, REG(0), 0, 0));
      SweepMore(id, first, reg - first);
      reg := reg + 1;
    }
  }

  // ---- src/mdio/mvls.c -----------------------------------------------------

  const MVLS_CMD := 0
  const MVLS_DATA := 1
  const MVLS_BUSY: u16 := 0x8000
  const MVLS_C22: u16 := 0x1000

  /** BUSY | C22 | op << 10 | port << 5 | reg, with op 1 for write and 2 for read;
      the first three are constants without a common bit. */
  function MultiCmd(port: u8, reg: u8, write: bool): u16 {
    Or16(Or16(MVLS_BUSY + MVLS_C22 + (if write then 1 else 2) * 0x400, port * 0x20), reg)
  }

  function WaitBody(id: u16): Code {
    [INSN(OP_READ, IMM(id), IMM(MVLS_CMD), REG(0))] + [INSN(OP_AND, REG(0), IMM(MVLS_BUSY), REG(0))]
  }

  /** The jump back of both polling loops: again while bit 15 is set. */
  function WhileBusy(body: Code): Insn {
    INSN(OP_JEQ, REG(0), IMM(MVLS_BUSY), GOTO(|body|, 0))
  }

  function WaitCmdCode(id: u8): Code { WaitBody(id) + [WhileBusy(WaitBody(id))] }

  method MvlsWaitCmd(prog: Prog, id: u8)
    modifies prog
    ensures prog.insns == old(prog.insns) + WaitCmdCode(id)
  {
    var retry := prog.Len();
    prog.Push(INSN(OP_READ, IMM(id), IMM(MVLS_CMD), REG(0)));
    prog.Push(INSN(OP_AND, REG(0), IMM(MVLS_BUSY), REG(0)));
    prog.Push(INSN(OP_JEQ, REG(0), IMM(MVLS_BUSY), GOTO(prog.Len(), retry)));
  }

  function MvlsReadToCode(id: u16, reg: u32, to: u8): Code {
    if id == 0 then [INSN(OP_READ, IMM(Upper(reg)), IMM(Lower(reg)), REG(to))]
    else [INSN(OP_WRITE, IMM(id), IMM(MVLS_CMD), IMM(MultiCmd(Upper(reg) % 0x100, Lower(reg) % 0x100, false)))]
         + WaitCmdCode(id % 0x100)
         + [INSN(OP_READ, IMM(id), IMM(MVLS_DATA), REG(to))]
  }

  method MvlsReadTo(prog: Prog, id: u16, reg: u32, to: u8)
    modifies prog
    ensures prog.insns == old(prog.insns) + MvlsReadToCode(id, reg, to)
  {
    var port, low := Upper(reg), Lower(reg);
    if id == 0 {
      prog.Push(INSN(OP_READ, IMM(port), IMM(low), REG(to)));
      return;
    }
    prog.Push(INSN(OP_WRITE, IMM(id), IMM(MVLS_CMD), IMM(MultiCmd(port % 0x100, low % 0x100, false))));
    MvlsWaitCmd(prog, id % 0x100);
    prog.Push(INSN(OP_READ, IMM(id), IMM(MVLS_DATA), REG(to)));
  }

  function MvlsReadCode(id: u16, reg: u32): Code { MvlsReadToCode(id, reg, 0) }

  method MvlsRead(prog: Prog, id: u16, reg: u32)
    modifies prog
    ensures prog.insns == old(prog.insns) + MvlsReadCode(id, reg)
  {
    MvlsReadTo(prog, id, reg, 0);
  }

  function MvlsWriteCode(id: u16, reg: u32, val: u32): Code {
    if id == 0 then [INSN(OP_WRITE, IMM(Upper(reg)), IMM(Lower(reg)), val)]
    else [INSN(OP_WRITE, IMM(id), IMM(MVLS_DATA), val)]
         + [INSN(OP_WRITE, IMM(id), IMM(MVLS_CMD), IMM(MultiCmd(Upper(reg) % 0x100, Lower(reg) % 0x100, true)))]
         + WaitCmdCode(id % 0x100)
  }

  method MvlsWrite(prog: Prog, id: u16, reg: u32, val: u32)
    modifies prog
    ensures prog.insns == old(prog.insns) + MvlsWriteCode(id, reg, val)
  {
    var port, low := Upper(reg), Lower(reg);
    if id == 0 {
      prog.Push(INSN(OP_WRITE, IMM(port), IMM(low), val));
      return;
    }
    prog.Push(INSN(OP_WRITE, IMM(id), IMM(MVLS_DATA), val));
    prog.Push(INSN(OP_WRITE, IMM(id), IMM(MVLS_CMD), IMM(MultiCmd(port % 0x100, low % 0x100, true))));
    MvlsWaitCmd(prog, id % 0x100);
  }

  function MvlsWaitBody(id: u16, reg: u32): Code {
    MvlsReadCode(id, reg) + [INSN(OP_AND, REG(0), IMM(MVLS_BUSY), REG(0))]
  }

  function MvlsWaitCode(id: u16, reg: u32): Code {
    MvlsWaitBody(id, reg) + [WhileBusy(MvlsWaitBody(id, reg))]
  }

  method MvlsWait(prog: Prog, id: u16, reg: u32)
    modifies prog
    ensures prog.insns == old(prog.insns) + MvlsWaitCode(id, reg)
  {
    hide MvlsReadToCode, INSN;
    var retry := prog.Len();
    MvlsReadTo(prog, id, reg, 0);
    prog.Push(INSN(OP_AND, REG(0), IMM(MVLS_BUSY), REG(0)));
    ghost var body := MvlsWaitBody(id, reg);
    assert prog.insns == old(prog.insns) + body;
    GotoIsRelative(retry, |body|, 0);
    prog.Push(INSN(OP_JEQ, REG(0), IMM(MVLS_BUSY), GOTO(prog.Len(), retry)));
  }

  // ---- src/mdio/xrs.c ------------------------------------------------------

  const XRS_IBA0 := 0x10
  const XRS_IBA1 := 0x11
  const XRS_IBD := 0x14

  /** `reg & 0xfffe` on the low half. */
  function EvenLow(reg: u32): u16 { Lower(reg) - Lower(reg) % 2 }

  function XrsReadCode(id: u16, reg: u32): Code {
    [INSN(OP_WRITE, IMM(id), IMM(XRS_IBA1), IMM(Upper(reg)))]
    + [INSN(OP_WRITE, IMM(id), IMM(XRS_IBA0), IMM(EvenLow(reg)))]
    + [INSN(OP_READ, IMM(id), IMM(XRS_IBD), REG(0))]
  }

  method XrsRead(prog: Prog, id: u16, reg: u32)
    modifies prog
    ensures prog.insns == old(prog.insns) + XrsReadCode(id, reg)
  {
    prog.Push(INSN(OP_WRITE, IMM(id), IMM(XRS_IBA1), IMM(Upper(reg))));
    prog.Push(INSN(OP_WRITE, IMM(id), IMM(XRS_IBA0), IMM(EvenLow(reg))));
    prog.Push(INSN(OP_READ, IMM(id), IMM(XRS_IBD), REG(0)));
  }

  /** The value is wrapped in `IMM` once more: an operand that names a register
      turns into the register's number. */
  function XrsWriteCode(id: u16, reg: u32, val: u32): Code {
    [INSN(OP_WRITE, IMM(id), IMM(XRS_IBD), IMM(val))]
    + [INSN(OP_WRITE, IMM(id), IMM(XRS_IBA1), IMM(Upper(reg)))]
    + [INSN(OP_WRITE, IMM(id), IMM(XRS_IBA0), IMM(EvenLow(reg) + 1))]
  }

  method XrsWrite(prog: Prog, id: u16, reg: u32, val: u32)
    modifies prog
    ensures prog.insns == old(prog.insns) + XrsWriteCode(id, reg, val)
  {
    prog.Push(INSN(OP_WRITE, IMM(id), IMM(XRS_IBD), IMM(val)));
    prog.Push(INSN(OP_WRITE, IMM(id), IMM(XRS_IBA1), IMM(Upper(reg))));
    prog.Push(INSN(OP_WRITE, IMM(id), IMM(XRS_IBA0), IMM(EvenLow(reg) + 1)));
  }

  // ---- `struct mdio_driver`: dispatch --------------------------------------

  function ReadCode(drv: Driver, reg: u32): Code {
    match drv
    case Phy(id) => PhyReadCode(id, reg)
    case MmdC22(id) => MmdC22ReadCode(id, reg)
    case Paged(id, pr) => PagedReadCode(id, pr, reg)
    case Mvls(id) => MvlsReadCode(id, reg)
    case Xrs(id) => XrsReadCode(id, reg)
  }

  method Read(drv: Driver, prog: Prog, reg: u32)
    modifies prog
    ensures prog.insns == old(prog.insns) + ReadCode(drv, reg)
  {
    match drv
    case Phy(id) => PhyRead(prog, id, reg);
    case MmdC22(id) => MmdC22Read(prog, id, reg);
    case Paged(id, pr) => PagedRead(prog, id, pr, reg);
    case Mvls(id) => MvlsRead(prog, id, reg);
    case Xrs(id) => XrsRead(prog, id, reg);
  }

  function WriteCode(drv: Driver, reg: u32, val: u32): Code {
    match drv
    case Phy(id) => PhyWriteCode(id, reg, val)
    case MmdC22(id) => MmdC22WriteCode(id, reg, val)
    case Paged(id, pr) => PagedWriteCode(id, pr, reg, val)
    case Mvls(id) => MvlsWriteCode(id, reg, val)
    case Xrs(id) => XrsWriteCode(id, reg, val)
  }

  method Write(drv: Driver, prog: Prog, reg: u32, val: u32)
    modifies prog
    ensures prog.insns == old(prog.insns) + WriteCode(drv, reg, val)
  {
    match drv
    case Phy(id) => PhyWrite(prog, id, reg, val);
    case MmdC22(id) => MmdC22Write(prog, id, reg, val);
    case Paged(id, pr) => PagedWrite(prog, id, pr, reg, val);
    case Mvls(id) => MvlsWrite(prog, id, reg, val);
    case Xrs(id) => XrsWrite(prog, id, reg, val);
  }
}
