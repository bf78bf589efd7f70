/** The generic operations of src/mdio/mdio.c: raw, bench and dump. They stitch
    driver fragments into whole programs. */
module Operations {
  import opened Words
  import opened Isa
  import opened Program
  import opened Drivers

  /** What follows the register on the command line of `raw`; a missing mask is 0. */
  datatype RawArg = ReadOnly | Data(val: u32, mask: u32)

  const EMIT0: Insn := INSN(OP_EMIT, REG(0), 0, 0)

  function AndMask(mask: u32): Insn { INSN(OP_AND, REG(0), IMM(mask), REG(0)) }
  function OrValue(val: u32): Insn { INSN(OP_OR, REG(0), IMM(val), REG(0)) }

  function RawCode(drv: Driver, reg: u32, arg: RawArg): Code {
    match arg
    case ReadOnly => ReadCode(drv, reg) + [EMIT0]
    case Data(val, mask) =>
      if mask != 0 then ReadCode(drv, reg) + [AndMask(mask)] + [OrValue(val)] + WriteCode(drv, reg, REG(0))
      else WriteCode(drv, reg, IMM(val))
  }

  method RawExec(drv: Driver, reg: u32, arg: RawArg) returns (prog: Prog)
    ensures fresh(prog) && prog.insns == RawCode(drv, reg, arg)
  {
    hide ReadCode, WriteCode, INSN;
    prog := new Prog();
    if arg.Data? && arg.mask != 0 {
      Read(drv, prog, reg);
      prog.Push(AndMask(arg.mask));
      prog.Push(OrValue(arg.val));
      Write(drv, prog, reg, REG(0));
    } else if arg.Data? {
      Write(drv, prog, reg, IMM(arg.val));
    } else {
      Read(drv, prog, reg);
      prog.Push(EMIT0);
    }
  }

  // ---- bench ---------------------------------------------------------------

  const BENCH_READS := 1000

  function SetReference(val: u32): Insn { INSN(OP_ADD, IMM(val), IMM(0), REG(7)) }
  const KEEP_REFERENCE: Insn := INSN(OP_ADD, REG(0), IMM(0), REG(7))
  const ZERO_COUNT: Insn := INSN(OP_ADD, IMM(0), IMM(0), REG(6))
  const SKIP_IF_SAME: Insn := INSN(OP_JEQ, REG(0), REG(7), IMM(1))
  const COUNT: Insn := INSN(OP_ADD, REG(6), IMM(1), REG(6))

  function BenchStart(drv: Driver, reg: u32, data: Option<u32>): Code {
    match data
    case Some(val) => [SetReference(val)] + WriteCode(drv, reg, REG(7))
    case None => ReadCode(drv, reg) + [KEEP_REFERENCE]
  }

  function BenchBody(drv: Driver, reg: u32): Code {
    ReadCode(drv, reg) + [SKIP_IF_SAME, EMIT0] + [COUNT]
  }

  function BenchAgain(body: Code): Insn { INSN(OP_JNE, REG(6), IMM(BENCH_READS), GOTO(|body|, 0)) }

  function BenchLoop(drv: Driver, reg: u32): Code {
    BenchBody(drv, reg) + [BenchAgain(BenchBody(drv, reg))]
  }

  function BenchCode(drv: Driver, reg: u32, data: Option<u32>): Code {
    BenchStart(drv, reg, data) + [ZERO_COUNT] + BenchLoop(drv, reg)
  }

  method PushBenchLoop(drv: Driver, prog: Prog, reg: u32)
    modifies prog
    ensures prog.insns == old(prog.insns) + BenchLoop(drv, reg)
  {
    hide ReadCode, INSN, REG, IMM, GOTO;
    var loop := prog.Len();
    Read(drv, prog, reg);
    prog.Push(SKIP_IF_SAME);
    prog.Push(EMIT0);
    prog.Push(COUNT);
    ghost var body := BenchBody(drv, reg);
    assert prog.insns == old(prog.insns) + body;
    GotoIsRelative(loop, |body|, 0);
    prog.Push(INSN(OP_JNE, REG(6), IMM(BENCH_READS), GOTO(prog.Len(), loop)));
    assert prog.insns == old(prog.insns) + (body + [BenchAgain(body)]);
  }

  method BenchExec(drv: Driver, reg: u32, data: Option<u32>) returns (prog: Prog)
    ensures fresh(prog) && prog.insns == BenchCode(drv, reg, data)
  {
    hide ReadCode, WriteCode, INSN, REG, IMM, BenchLoop;
    prog := new Prog();
    if data.Some? {
      prog.Push(SetReference(data.value));
      Write(drv, prog, reg, REG(7));
    } else {
      Read(drv, prog, reg);
      prog.Push(KEEP_REFERENCE);
    }
    assert prog.insns == BenchStart(drv, reg, data);
    prog.Push(ZERO_COUNT);
    PushBenchLoop(drv, prog, reg);
  }

  // ---- dump ----------------------------------------------------------------

  function UnrolledDump(drv: Driver, first: nat, count: nat): Code
    requires first + count <= 0x1_0000_0000
  {
    if count == 0 then []
    else UnrolledDump(drv, first, count - 1) + ReadCode(drv, first + count - 1) + [EMIT0]
  }

  /** A driver with its own `dump` uses it; the others get the unrolled loop. */
  function DumpCode(drv: Driver, start: u32, end: u32): Code {
    match drv
    case Paged(id, pr) => PagedDumpCode(id, pr, start, end)
    case _ => UnrolledDump(drv, start, RangeSize(start, end))
  }

  /** `first` is the start of the range that is left for the callback. */
  method DumpExec(drv: Driver, start: u32, end: u32) returns (prog: Prog, first: u32)
    requires end < 0xffff_ffff
    ensures fresh(prog) && prog.insns == DumpCode(drv, start, end)
    ensures first == if drv.Paged? then start % 0x20 else start
  {
    hide ReadCode;
    prog := new Prog();
    first := start;
    if drv.Paged? {
      first := PagedDump(prog, drv.id, drv.pageReg, start, end);
    } else {
      var reg: u32 := start;
      while reg <= end
        invariant start <= reg && (start <= end ==> reg <= end + 1) && (start > end ==> reg == start)
        invariant fresh(prog) && prog.insns == UnrolledDump(drv, start, reg - start)
        decreases end + 1 - reg
      {
        Read(drv, prog, reg);
        prog.Push(EMIT0);
        reg := reg + 1;
      }
    }
  }

  /** The cast `(int)` of a 32-bit expression. */
  function Signed32(x: int): int {
    var w := x % 0x1_0000_0000;
    if w < 0x8000_0000 then w else w - 0x1_0000_0000
  }

  const REFUSED := 1

  /** `mdio_common_dump_cb` on `len` words, without the printing. */
  function DumpCallback(start: u32, end: u32, len: nat, err: int): int {
    if len != Signed32(end - start + 1) then REFUSED else err
  }

  /** Given as many words as there are registers from `first` to `end`, the callback
      takes them, whatever the outcome it is told, exactly if the range is not inverted;
      an empty one that ends right before it starts counts as 0 words. */
  lemma DumpTakenIff(first: u32, end: u32)
    requires end - first < 0x7fff_ffff
    ensures var len: nat := if first <= end then end - first + 1 else 0;
            (forall err :: DumpCallback(first, end, len, err) == err) <==> first <= end + 1
  {
    if first > end + 1 {
      assert DumpCallback(first, end, 0, 0) == 1;
    }
  }

  /** A range of m registers needs exactly m words; any other number is refused with 1. */
  lemma CallbackCounts(start: u32, end: u32, len: nat, err: int)
    requires start <= end && end - start < 0x7fff_ffff
    ensures DumpCallback(start, end, len, err) == if len == end - start + 1 then err else 1
  {
  }

  /** Had the page been left in the start, no dump of a page but 0 would be taken. */
  lemma MaskingMatters(start: u32, end: u32, len: nat, err: int)
    requires 0 < PageOf(start) && start < 0x100_0000 && end < 0x20
    ensures DumpCallback(start, end, len, err) == 1
  {
  }
}
