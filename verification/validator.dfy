/** The static validator of kernel/mdio-netlink.c, and that everything the drivers
    and operations generate gets past it. */
module Validator {
  import opened Words
  import opened Isa
  import opened Machine
  import opened Drivers
  import opened Operations
  import opened Bindings
  import opened Status
  import opened Counters
  import opened Tables

  method ValidateInsn(insn: Insn) returns (err: int)
    ensures err == if ValidInsn(insn) then 0 else -22
  {
    if insn.op > OP_MAX {
      return -EINVAL;
    }
    var proto := Modes(insn.op);
    if Mode(insn.arg0) !in proto.0 {
      return -EINVAL;
    }
    if Mode(insn.arg1) !in proto.1 {
      return -EINVAL;
    }
    if Mode(insn.arg2) !in proto.2 {
      return -EINVAL;
    }
    return 0;
  }

  const INSN_BYTES := 8

  /** `prog` are the whole instructions in an attribute of `len` bytes. */
  method ValidateProg(len: nat, prog: Code) returns (err: int)
    requires |prog| == len / 8
    ensures err == if len % 8 == 0 && (forall k | 0 <= k < |prog| :: ValidInsn(prog[k])) then 0 else -22
  {
    if len % INSN_BYTES != 0 {
      return -EINVAL;
    }
    err := 0;
    var i := 0;
    while i < |prog|
      invariant 0 <= i <= |prog| && err == 0
      invariant forall k | 0 <= k < i :: ValidInsn(prog[k])
    {
      err := ValidateInsn(prog[i]);
      if err != 0 {
        break;
      }
      i := i + 1;
    }
  }

  // ---- everything generated is valid ---------------------------------------

  /** An operand that READ, WRITE and the arithmetic instructions accept as input. */
  predicate Input(arg: u18) { Mode(arg) == ARG_REG || Mode(arg) == ARG_IMM }

  lemma ValidOp(op: u8, a: u18, b: u18, r: u18)
    requires OP_READ <= op <= OP_ADD && Input(a) && Input(b)
    requires Mode(r) == ARG_REG || (op == OP_WRITE && Input(r))
    ensures ValidInsn(INSN(op, a, b, r))
  {
  }

  lemma ValidJump(op: u8, a: u18, b: u18, t: u18)
    requires (op == OP_JEQ || op == OP_JNE) && Input(a) && Input(b) && Mode(t) == ARG_IMM
    ensures ValidInsn(INSN(op, a, b, t))
  {
  }

  lemma MvlsValid(id: u16, reg: u32, to: u8, arg: u18)
    requires Input(arg)
    ensures ValidCode(MvlsReadToCode(id, reg, to)) && ValidCode(MvlsWriteCode(id, reg, arg))
  {
    hide MultiCmd, REG, IMM, Modes;
    WaitCmdValid(id % 0x100);
    hide WaitCmdCode, ValidInsn;
    var w := WaitCmdCode(id % 0x100);
    var c0, c1 := MultiCmd(Upper(reg) % 0x100, Lower(reg) % 0x100, false), MultiCmd(Upper(reg) % 0x100, Lower(reg) % 0x100, true);
    ValidOp(OP_WRITE, IMM(id), IMM(MVLS_CMD), IMM(c0));
    ValidOp(OP_WRITE, IMM(id), IMM(MVLS_CMD), IMM(c1));
    ValidOp(OP_WRITE, IMM(id), IMM(MVLS_DATA), arg);
    ValidOp(OP_READ, IMM(id), IMM(MVLS_DATA), REG(to));
    ValidOp(OP_READ, IMM(Upper(reg)), IMM(Lower(reg)), REG(to));
    ValidOp(OP_WRITE, IMM(Upper(reg)), IMM(Lower(reg)), arg);
    hide INSN;
  }

  lemma WaitCmdValid(id: u8)
    ensures ValidCode(WaitCmdCode(id))
  {
    hide REG, IMM, Modes, ValidInsn, GOTO;
    BusyTestValid(WaitBody(id));
    ValidOp(OP_READ, IMM(id), IMM(MVLS_CMD), REG(0));
    hide INSN;
  }

  /** The two instructions that end both polling loops. */
  lemma BusyTestValid(body: Code)
    ensures ValidInsn(WhileBusy(body)) && ValidInsn(INSN(OP_AND, REG(0), IMM(MVLS_BUSY), REG(0)))
  {
    hide REG, IMM, ValidInsn;
    ValidJump(OP_JEQ, REG(0), IMM(MVLS_BUSY), GOTO(|body|, 0));
    ValidOp(OP_AND, REG(0), IMM(MVLS_BUSY), REG(0));
  }

  lemma PagedValid(id: u16, pr: u8, page: u8)
    ensures ValidCode(PagedEnterCode(id, pr, page)) && ValidCode(PagedLeaveCode(id, pr, page))
  {
    hide REG, IMM, ValidInsn;
    ValidOp(OP_READ, IMM(id), IMM(pr), REG(1));
    ValidJump(OP_JEQ, REG(1), IMM(page), IMM(1));
    ValidOp(OP_WRITE, IMM(id), IMM(pr), IMM(page));
    ValidOp(OP_WRITE, IMM(id), IMM(pr), REG(1));
    hide INSN;
  }

  lemma ReadCodeValid(drv: Driver, reg: u32)
    ensures ValidCode(ReadCode(drv, reg))
  {
    hide MvlsReadToCode, PagedEnterCode, PagedLeaveCode, REG, IMM, ValidInsn;
    match drv
    case Phy(id) => ValidOp(OP_READ, IMM(id), IMM(reg), REG(0));
    case MmdC22(id) =>
      MmdSelectValid(id, reg);
      ValidOp(OP_READ, IMM(PortAddr(id)), IMM(14), REG(0));
    case Paged(id, pr) =>
      PagedValid(id, pr, PageOf(reg));
      ValidOp(OP_READ, IMM(id), IMM(PageReg(reg)), REG(0));
    case Mvls(id) => MvlsValid(id, reg, 0, IMM(0));
    case Xrs(id) =>
      ValidOp(OP_WRITE, IMM(id), IMM(XRS_IBA1), IMM(Upper(reg)));
      ValidOp(OP_WRITE, IMM(id), IMM(XRS_IBA0), IMM(EvenLow(reg)));
      ValidOp(OP_READ, IMM(id), IMM(XRS_IBD), REG(0));
  }

  lemma MmdSelectValid(id: u16, reg: u32)
    ensures ValidCode(MmdSelectCode(id, reg))
  {
    hide REG, IMM, ValidInsn;
    var p := PortAddr(id);
    ValidOp(OP_WRITE, IMM(p), IMM(13), IMM(DevAddr(id)));
    ValidOp(OP_WRITE, IMM(p), IMM(14), IMM(reg));
    ValidOp(OP_WRITE, IMM(p), IMM(13), IMM(DevAddr(id) as int + 0x4000));
  }

  lemma WriteCodeValid(drv: Driver, reg: u32, arg: u18)
    requires Input(arg)
    ensures ValidCode(WriteCode(drv, reg, arg))
  {
    hide MvlsWriteCode, PagedEnterCode, PagedLeaveCode, REG, IMM, ValidInsn;
    match drv
    case Phy(id) => ValidOp(OP_WRITE, IMM(id), IMM(reg), arg);
    case MmdC22(id) =>
      MmdSelectValid(id, reg);
      ValidOp(OP_WRITE, IMM(PortAddr(id)), IMM(14), arg);
    case Paged(id, pr) =>
      PagedValid(id, pr, PageOf(reg));
      ValidOp(OP_WRITE, IMM(id), IMM(PageReg(reg)), arg);
    case Mvls(id) => MvlsValid(id, reg, 0, arg);
    case Xrs(id) =>
      ValidOp(OP_WRITE, IMM(id), IMM(XRS_IBD), IMM(arg));
      ValidOp(OP_WRITE, IMM(id), IMM(XRS_IBA1), IMM(Upper(reg)));
      ValidOp(OP_WRITE, IMM(id), IMM(XRS_IBA0), IMM(EvenLow(reg) as int + 1));
  }

  /** `mdio_xfer_timeout` and the attribute policy: at most 4096 bytes of program. */
  const MAX_PROG := 0x1000 / INSN_BYTES

  ghost predicate Accepted(f: Code) { ValidCode(f) && |f| <= MAX_PROG }

  // ---- the request around a program ----------------------------------------

  const BUFFER := 0x1000

  /** A netlink attribute: four bytes of header and the payload, padded to four. */
  function AttrBytes(payload: nat): nat { 4 + (payload + 3) / 4 * 4 }

  /** The request: the two headers, the bus name with its NUL, the program, and a
      16-bit timeout. */
  function RequestBytes(name: nat, prog: nat): nat {
    20 + AttrBytes(name + 1) + AttrBytes(prog * INSN_BYTES) + AttrBytes(2)
  }

  /** The longest program that still fits the buffer beside a bus name. */
  function Longest(name: nat): int { (BUFFER - 32 - AttrBytes(name + 1)) / INSN_BYTES }

  lemma RequestFitsIff(name: nat, prog: nat)
    ensures RequestBytes(name, prog) <= 4096 <==> prog <= Longest(name)
  {
    assert (prog * INSN_BYTES + 3) / 4 * 4 == prog * INSN_BYTES;
  }

  /** The length test looks at the program alone, so for every bus name there are
      programs that it lets pass although the request does not fit. */
  lemma LengthTestGap(name: nat)
    ensures Longest(name) < 512
    ensures forall prog: nat :: prog <= 512 && RequestBytes(name, prog) > 4096 <==> Longest(name) < prog <= 512
  {
    forall prog: nat ensures RequestBytes(name, prog) <= 4096 <==> prog <= Longest(name) {
      RequestFitsIff(name, prog);
    }
  }

  /** `MII_BUS_ID_SIZE` of linux/phy.h less the NUL. */
  const MAX_NAME := 60

  /** Valid, and in the buffer beside every bus name. */
  ghost predicate Sendable(f: Code) {
    Accepted(f) && forall name: nat :: name <= MAX_NAME ==> RequestBytes(name, |f|) <= BUFFER
  }

  lemma SendableIff(f: Code)
    ensures Sendable(f) <==> ValidCode(f) && |f| <= Longest(MAX_NAME)
  {
    RequestFitsIff(MAX_NAME, |f|);
    if |f| <= Longest(MAX_NAME) {
      forall name: nat | name <= MAX_NAME ensures RequestBytes(name, |f|) <= BUFFER {
        RequestFitsIff(name, |f|);
      }
    }
  }

  lemma EmitValid()
    ensures ValidInsn(EMIT0)
  {
  }

  lemma RawAccepted(drv: Driver, reg: u32, arg: RawArg)
    ensures Sendable(RawCode(drv, reg, arg))
  {
    SendableIff(RawCode(drv, reg, arg));
    hide Sendable;
    hide ReadCode, WriteCode, ValidInsn, REG, IMM;
    EmitValid();
    ReadCodeValid(drv, reg);
    ReadCodeClosed(drv, reg);
    if arg.Data? {
      ValidOp(OP_AND, REG(0), IMM(arg.mask), REG(0));
      ValidOp(OP_OR, REG(0), IMM(arg.val), REG(0));
      WriteCodeValid(drv, reg, REG(0));
      WriteCodeValid(drv, reg, IMM(arg.val));
      WriteCodeClosed(drv, reg, REG(0));
      WriteCodeClosed(drv, reg, IMM(arg.val));
    }
  }

  lemma BenchAccepted(drv: Driver, reg: u32, data: Option<u32>)
    ensures Sendable(BenchCode(drv, reg, data))
  {
    SendableIff(BenchCode(drv, reg, data));
    hide Sendable;
    hide ReadCode, WriteCode, ValidInsn, REG, IMM, INSN;
    EmitValid();
    ReadCodeValid(drv, reg);
    ReadCodeClosed(drv, reg);
    BenchInsnsValid(BenchBody(drv, reg));
    if data.Some? {
      ValidOp(OP_ADD, IMM(data.value), IMM(0), REG(7));
      WriteCodeValid(drv, reg, REG(7));
      WriteCodeClosed(drv, reg, REG(7));
    }
  }

  lemma BenchInsnsValid(body: Code)
    ensures ValidInsn(KEEP_REFERENCE) && ValidInsn(ZERO_COUNT) && ValidInsn(SKIP_IF_SAME) && ValidInsn(COUNT)
    ensures ValidInsn(BenchAgain(body))
  {
    ValidJump(OP_JNE, REG(6), IMM(BENCH_READS), GOTO(|body|, 0));
  }

  // ---- dumps: the only programs that can get too long ----------------------

  /** The length of a read, the same for every register. */
  function ReadLength(drv: Driver): nat {
    match drv
    case Phy(_) => 1
    case MmdC22(_) => 4
    case Paged(_, _) => 6
    case Mvls(id) => if id == 0 then 1 else 5
    case Xrs(_) => 3
  }

  lemma ReadHasLength(drv: Driver, reg: u32)
    ensures |ReadCode(drv, reg)| == ReadLength(drv)
  {
    hide INSN, MultiCmd;
  }

  lemma {:induction false} UnrolledValid(drv: Driver, first: nat, count: nat)
    requires first + count <= 0x1_0000_0000
    ensures ValidCode(UnrolledDump(drv, first, count))
    ensures |UnrolledDump(drv, first, count)| == count * (ReadLength(drv) + 1)
    decreases count
  {
    hide ReadCode, ValidInsn, ReadLength;
    if count > 0 {
      UnrolledValid(drv, first, count - 1);
      ReadCodeValid(drv, first + count - 1);
      ReadHasLength(drv, first + count - 1);
      EmitValid();
      assert count * (ReadLength(drv) + 1) == (count - 1) * (ReadLength(drv) + 1) + ReadLength(drv) + 1;
    }
  }

  lemma {:induction false} SweepValid(id: u16, first: nat, count: nat)
    ensures ValidCode(SweepCode(id, first, count)) && |SweepCode(id, first, count)| == 2 * count
    decreases count
  {
    hide ValidInsn, IMM, REG;
    if count > 0 {
      SweepValid(id, first, count - 1);
      EmitValid();
      ValidOp(OP_READ, IMM(id), IMM(first + count - 1), REG(0));
    }
  }

  /** The length of a dump. */
  function DumpLength(drv: Driver, start: u32, end: u32): nat {
    if drv.Paged? then 2 * RangeSize(PageReg(start), end) + 5 else RangeSize(start, end) * (ReadLength(drv) + 1)
  }

  lemma DumpValid(drv: Driver, start: u32, end: u32)
    ensures ValidCode(DumpCode(drv, start, end)) && |DumpCode(drv, start, end)| == DumpLength(drv, start, end)
  {
    hide ValidInsn, UnrolledDump, SweepCode, PagedEnterCode, PagedLeaveCode, ReadLength;
    match drv
    case Paged(id, pr) =>
      SweepValid(id, PageReg(start), RangeSize(PageReg(start), end));
      PagedValid(id, pr, PageOf(start));
      PagedClosed(id, pr, PageOf(start));
    case _ => UnrolledValid(drv, start, RangeSize(start, end));
  }

  /** A dump passes both checks exactly when the range is short enough for the driver.
      The request around it fits under a tighter bound: a dump of more than
      Longest(name) instructions passes the length test all the same. */
  lemma DumpAcceptedIff(drv: Driver, start: u32, end: u32, name: nat)
    ensures var f, n := DumpCode(drv, start, end), DumpLength(drv, start, end);
            (Accepted(f) <==> n <= 512)
            && (RequestBytes(name, |f|) <= 4096 <==> n <= Longest(name))
            && (Accepted(f) && RequestBytes(name, |f|) > 4096 <==> Longest(name) < n <= 512)
  {
    hide ValidInsn, DumpCode, DumpLength, RequestBytes;
    DumpValid(drv, start, end);
    RequestFitsIff(name, DumpLength(drv, start, end));
  }

  // ---- status and counter programs -----------------------------------------

  lemma FetchValid(a: u18, b: u18)
    requires Input(a) && Input(b)
    ensures ValidCode(Fetch(a, b)) && |Fetch(a, b)| == 2
  {
    hide ValidInsn, REG;
    EmitValid();
    ValidOp(OP_READ, a, b, REG(0));
  }

  lemma StatusAccepted(id: u16)
    ensures Sendable(ProbeCode()) && Sendable(MmdStatusCode(id))
  {
    SendableIff(ProbeCode());
    SendableIff(MmdStatusCode(id));
    hide Sendable;
    hide Fetch, REG, IMM, INSN, ValidInsn;
    FetchValid(REG(1), IMM(1));
    FetchValid(REG(1), IMM(2));
    FetchValid(REG(1), IMM(3));
    FetchValid(IMM(id), REG(1));
    ValidOp(OP_ADD, IMM(0), IMM(0), REG(1));
    ValidOp(OP_ADD, REG(1), IMM(1), REG(1));
    ValidJump(OP_JNE, REG(1), IMM(MDIO_DEV_MAX), IMM(-8));
    ValidJump(OP_JNE, REG(1), IMM(MMD_STATUS_REGS), IMM(-4));
  }

  lemma {:induction false} ListAccepted(id: u16, regs: seq<u16>)
    ensures ValidCode(ListCode(id, regs)) && |ListCode(id, regs)| == 2 * |regs|
    decreases |regs|
  {
    hide Fetch, IMM, ValidInsn;
    if regs != [] {
      ListAccepted(id, regs[..|regs| - 1]);
      FetchValid(IMM(id), IMM(regs[|regs| - 1]));
    }
  }

  lemma StatusListsAccepted(id: u16, pageReg: u8)
    ensures Sendable(ListCode(id, PHY_STATUS_REGS)) && Sendable(ListCode(id, MvaStatusRegs(pageReg)))
  {
    hide Sendable, ValidInsn, ListCode;
    ListAccepted(id, PHY_STATUS_REGS);
    ListAccepted(id, MvaStatusRegs(pageReg));
    SendableIff(ListCode(id, PHY_STATUS_REGS));
    SendableIff(ListCode(id, MvaStatusRegs(pageReg)));
  }

  lemma WaitValid(id: u16, reg: u32)
    ensures ValidCode(MvlsWaitCode(id, reg)) && |MvlsWaitCode(id, reg)| <= 7
  {
    hide MvlsReadToCode, ValidInsn, INSN;
    MvlsValid(id, reg, 0, IMM(0));
    MvlsClosed(id, reg, 0, 0);
    BusyTestValid(MvlsWaitBody(id, reg));
  }

  lemma ReadOneValid(id: u16, counter: u8)
    ensures ValidCode(ReadOneCode(id, counter)) && |ReadOneCode(id, counter)| <= 24
  {
    hide MvlsWriteCode, MvlsReadToCode, MvlsWaitCode, ValidInsn, IMM;
    EmitValid();
    var arg := IMM(READ_ONE as int + counter);
    MvlsValid(id, STATS_OP, 0, arg);
    MvlsClosed(id, STATS_OP, 0, arg);
    MvlsValid(id, STATS_HI, 0, arg);
    MvlsClosed(id, STATS_HI, 0, arg);
    MvlsValid(id, STATS_LO, 0, arg);
    MvlsClosed(id, STATS_LO, 0, arg);
    WaitValid(id, STATS_OP);
  }

  lemma {:induction false} ReadManyValid(id: u16, counters: seq<u8>)
    ensures ValidCode(ReadManyCode(id, counters)) && |ReadManyCode(id, counters)| <= 24 * |counters|
    decreases |counters|
  {
    hide ReadOneCode, ValidInsn;
    if counters != [] {
      ReadManyValid(id, counters[..|counters| - 1]);
      ReadOneValid(id, counters[|counters| - 1]);
    }
  }

  lemma CounterAccepted(id: u16, wide: bool)
    ensures Sendable(CounterCode(id, wide))
  {
    SendableIff(CounterCode(id, wide));
    hide Sendable;
    hide MvlsWriteCode, MvlsWaitCode, ReadManyCode, ValidInsn, REG, IMM, INSN, GOTO;
    WaitValid(id, STATS_OP);
    ReadManyValid(id, COUNTER_IDS);
    MvlsValid(id, STATS_OP, 0, REG(1));
    MvlsClosed(id, STATS_OP, 0, REG(1));
    PortInsnsValid(wide, PortBody(id, wide));
  }

  lemma PortInsnsValid(wide: bool, body: Code)
    ensures ValidInsn(FirstPort(wide)) && ValidInsn(NextPort(wide)) && ValidInsn(PortAgain(wide, body))
  {
    hide REG, IMM, ValidInsn;
    ValidOp(OP_ADD, IMM(CAPTURE + Base(wide)), IMM(0), REG(1));
    ValidOp(OP_ADD, REG(1), IMM(Shift(wide)), REG(1));
    ValidJump(OP_JNE, REG(1), IMM(LastPort(wide)), GOTO(|body|, 0));
  }

  // ---- the LAG listing -----------------------------------------------------

  lemma {:induction false} MapRowsValid(id: u16, n: nat)
    requires n <= LAGS
    ensures ValidCode(MapRows(id, n)) && |MapRows(id, n)| <= 11 * n
    decreases n
  {
    hide MvlsReadToCode, MvlsWriteCode, ValidInsn, IMM;
    if n > 0 {
      MapRowsValid(id, n - 1);
      EmitValid();
      var arg := IMM((n - 1) * 0x800);
      MvlsValid(id, TRUNK_MAP, 0, arg);
      MvlsClosed(id, TRUNK_MAP, 0, arg);
    }
  }

  lemma {:induction false} MaskRowsValid(id: u16, n: nat)
    requires n <= MASKS
    ensures ValidCode(MaskRows(id, n)) && |MaskRows(id, n)| <= 18 * n
    decreases n
  {
    hide MvlsReadToCode, MvlsWriteCode, ValidInsn, IMM, REG;
    if n > 0 {
      MaskRowsValid(id, n - 1);
      EmitValid();
      MvlsValid(id, TRUNK_MASK, 0, REG(0));
      MvlsClosed(id, TRUNK_MASK, 0, REG(0));
      ValidOp(OP_AND, REG(0), IMM(0x800), REG(0));
      ValidOp(OP_OR, REG(0), IMM((n - 1) * 0x1000), REG(0));
    }
  }

  lemma LagAccepted(id: u16)
    ensures Sendable(LagCode(id))
  {
    SendableIff(LagCode(id));
    hide Sendable;
    hide MapRows, MaskRows, ValidInsn;
    MapRowsValid(id, LAGS);
    MaskRowsValid(id, MASKS);
  }
}
