/** The byte code machine of kernel/mdio-netlink.c, one step at a time. */
module Machine {
  import opened Words
  import opened Isa

  // ---- the bus -------------------------------------------------------------

  datatype Addr = C22(phy: u16) | C45(prtad: u16, devad: u16)

  /** `mdio_phy_id_is_c45` and the field accessors of linux/mdio.h: bit 15 set,
      bits 14:10 clear, port address in bits 9:5, device address in bits 4:0. */
  function AddrOf(id: u16): Addr {
    if 0x8000 <= id < 0x8400 then C45(id / 32 % 32, id % 32) else C22(id)
  }

  /** What `__mdiobus_read` and its siblings return: negative for an error. */
  datatype Reply<S> = Reply(ret: int, dev: S)

  /** A bus is any pair of functions on any state: every response pattern is one. */
  datatype Bus<!S> = Bus(read: (S, Addr, u16) -> Reply<S>, write: (S, Addr, u16, u16) -> Reply<S>)

  // ---- machine state -------------------------------------------------------

  type Regs = r: seq<u16> | |r| == 8 witness [0, 0, 0, 0, 0, 0, 0, 0]

  /** Everything a program can change, except the program counter. */
  datatype Core<S> = Core(regs: Regs, dev: S, out: seq<u16>)

  const ZERO_REGS: Regs := [0, 0, 0, 0, 0, 0, 0, 0]

  const EINVAL := 22

  /** What one instruction does. `Go` carries the amount added to the program
      counter by a taken jump; `Bug` is a `BUG`/`BUG_ON`; `Illegal` the default arm. */
  datatype Action<S> =
    | Go(core: Core<S>, jump: int)
    | Fault(err: int, core: Core<S>)
    | Illegal
    | Bug

  /** `__arg_ri`, with None for `BUG()`. */
  function ArgRI(arg: u18, regs: Regs): Option<u16> {
    if Mode(arg) == ARG_IMM then Some(Payload(arg))
    else if Mode(arg) == ARG_REG then Some(regs[arg % 8])
    else None
  }

  /** `*__arg_r(arg, regs) = value`. */
  function Store<S>(core: Core<S>, arg: u18, value: u16): Action<S> {
    if Mode(arg) == ARG_REG then Go(core.(regs := core.regs[arg % 8 := value]), 0) else Bug
  }

  function Branch<S>(core: Core<S>, taken: bool, arg: u18): Action<S> {
    if !taken then Go(core, 0)
    else if Mode(arg) == ARG_IMM then Go(core, Signed(Payload(arg)))
    else Bug
  }

  function ExecRead<S>(i: Insn, c: Core<S>, bus: Bus<S>, a: u16, b: u16): Action<S> {
    var r := bus.read(c.dev, AddrOf(a), b);
    if r.ret < 0 then Fault(r.ret, c.(dev := r.dev))
    else Store(c.(dev := r.dev), i.arg2, r.ret % 0x1_0000)
  }

  function ExecWrite<S>(i: Insn, c: Core<S>, bus: Bus<S>, a: u16, b: u16): Action<S> {
    var v := ArgRI(i.arg2, c.regs);
    if v.None? then Bug else
    var r := bus.write(c.dev, AddrOf(a), b, v.value);
    if r.ret < 0 then Fault(r.ret, c.(dev := r.dev)) else Go(c.(dev := r.dev), 0)
  }

  /** The body of the switch in `mdio_nl_eval`. */
  function Exec<S>(i: Insn, c: Core<S>, bus: Bus<S>): Action<S> {
    var a, b := ArgRI(i.arg0, c.regs), ArgRI(i.arg1, c.regs);
    if i.op == OP_EMIT then
      if a.None? then Bug else Go(c.(out := c.out + [a.value]), 0)
    else if !(OP_READ <= i.op < OP_EMIT) then Illegal
    else if a.None? || b.None? then Bug
    else if i.op == OP_READ then ExecRead(i, c, bus, a.value, b.value)
    else if i.op == OP_WRITE then ExecWrite(i, c, bus, a.value, b.value)
    else if i.op == OP_AND then Store(c, i.arg2, And16(a.value, b.value))
    else if i.op == OP_OR then Store(c, i.arg2, Or16(a.value, b.value))
    else if i.op == OP_ADD then Store(c, i.arg2, Add16(a.value, b.value))
    else if i.op == OP_JEQ then Branch(c, a.value == b.value, i.arg2)
    else Branch(c, a.value != b.value, i.arg2)
  }

  // ---- whole runs ----------------------------------------------------------

  datatype Verdict = Finished | TimedOut | BusError(err: int) | BadOpcode | Crashed

  /** `left` is what remains of the budget of instructions the deadline allows. */
  datatype Outcome<S> = Outcome(verdict: Verdict, pc: int, core: Core<S>, left: nat)

  function Wrap32(x: int): u32 { x % 0x1_0000_0000 }

  /** `pc += off` in the switch, then `++pc` in the loop header, both unsigned 32-bit. */
  function NextPc(pc: u32, jump: int): u32 { Wrap32(Wrap32(pc + jump) + 1) }

  /** `goto exit`, with whatever made the instruction leave the loop. */
  function Stop<S>(a: Action<S>, pc: int, c: Core<S>, left: nat): (o: Outcome<S>)
    requires !a.Go?
    ensures o.left == left && o.pc == pc && o.verdict != Finished && o.verdict != TimedOut
  {
    match a
    case Fault(err, d) => Outcome(BusError(err), pc, d, left)
    case Illegal => Outcome(BadOpcode, pc, c, left)
    case Bug => Outcome(Crashed, pc, c, left)
  }

  function Run<S>(prog: Code, pc: u32, c: Core<S>, bus: Bus<S>, budget: nat): (o: Outcome<S>)
    ensures o.left <= budget
    decreases budget
  {
    if pc >= |prog| then Outcome(Finished, pc, c, budget)
    else if budget == 0 then Outcome(TimedOut, pc, c, 0)
    else
      var a := Exec(prog[pc], c, bus);
      if a.Go? then Run(prog, NextPc(pc, a.jump), a.core, bus, budget - 1) else Stop(a, pc, c, budget - 1)
  }

  /** The same machine with a mathematical program counter: it stops as soon as
      the counter leaves the program on either side. */
  function IdealRun<S>(prog: Code, pc: int, c: Core<S>, bus: Bus<S>, budget: nat): Outcome<S>
    decreases budget
  {
    if !(0 <= pc < |prog|) then Outcome(Finished, pc, c, budget)
    else if budget == 0 then Outcome(TimedOut, pc, c, 0)
    else
      var a := Exec(prog[pc], c, bus);
      if a.Go? then IdealRun(prog, pc + a.jump + 1, a.core, bus, budget - 1) else Stop(a, pc, c, budget - 1)
  }

  lemma JumpRange<S>(i: Insn, c: Core<S>, bus: Bus<S>)
    ensures var a := Exec(i, c, bus);
            a.Go? ==> -0x8000 <= a.jump < 0x8000 && (a.jump == 0 || (IsJump(i) && a.jump == Offset(i)))
  {
  }

  lemma NextPcIsIdeal(pc: u32, jump: int)
    requires -0x8000 <= jump < 0x8000
    ensures NextPc(pc, jump) == Wrap32(pc + jump + 1)
  {
  }

  lemma WrapMisses(pc: int, len: nat)
    requires len < 0x8000_0000 && -0x8000 <= pc < 0x8000_8000
    ensures if 0 <= pc then Wrap32(pc) == pc else Wrap32(pc) >= len
  {
  }

  /** The wrapping machine refines the ideal one: a program that fits the 31-bit
      length field never comes back into the program by wrapping around, except
      through 0xffffffff when a jump targets instruction 0. */
  lemma {:induction false} WrappingPcRefinesIdeal<S>(prog: Code, pc: int, c: Core<S>, bus: Bus<S>, budget: nat)
    requires |prog| < 0x8000_0000 && -0x8000 <= pc < 0x8000_8000
    ensures var ideal := IdealRun(prog, pc, c, bus, budget);
            Run(prog, Wrap32(pc), c, bus, budget) == ideal.(pc := Wrap32(ideal.pc))
    decreases budget
  {
    hide Exec;
    WrapMisses(pc, |prog|);
    if 0 <= pc < |prog| && budget > 0 {
      JumpRange(prog[pc], c, bus);
      var a := Exec(prog[pc], c, bus);
      if a.Go? {
        NextPcIsIdeal(pc, a.jump);
        WrappingPcRefinesIdeal(prog, pc + a.jump + 1, a.core, bus, budget - 1);
      }
    }
  }

  /** `GOTO(from, to)` placed at index `from` leads to exactly `to`. */
  lemma GotoReachesTarget<S>(from: int, to: int, c: Core<S>)
    requires 0 <= from < 0x8000_0000 && 0 <= to < 0x8000_0000 && -0x8000 <= to - from - 1 < 0x8000
    ensures Branch(c, true, GOTO(from, to)).Go?
    ensures NextPc(from, Branch(c, true, GOTO(from, to)).jump) == to
  {
    var off := to - from - 1;
    assert Payload(GOTO(from, to)) == off % 0x1_0000;
    assert Signed(off % 0x1_0000) == off;
  }

  // ---- the static validator ------------------------------------------------

  /** `mdio_nl_op_protos`: the set of allowed argument modes per operand; the
      entry of opcode 0 is all zero, so nothing matches it. */
  function Modes(op: u8): (p: (set<int>, set<int>, set<int>))
  {
    var r, i, ri, none := {ARG_REG}, {ARG_IMM}, {ARG_REG, ARG_IMM}, {ARG_NONE};
    if op == OP_READ then (ri, ri, r)
    else if op == OP_WRITE then (ri, ri, ri)
    else if op == OP_AND || op == OP_OR || op == OP_ADD then (ri, ri, r)
    else if op == OP_JEQ || op == OP_JNE then (ri, ri, i)
    else if op == OP_EMIT then (ri, none, none)
    else ({}, {}, {})
  }

  predicate ValidInsn(i: Insn) {
    i.op <= OP_MAX && Mode(i.arg0) in Modes(i.op).0 && Mode(i.arg1) in Modes(i.op).1 && Mode(i.arg2) in Modes(i.op).2
  }

  predicate ValidCode(f: Code) { forall i | 0 <= i < |f| :: ValidInsn(f[i]) }

  ghost predicate Stuck<S>(a: Action<S>) { a.Illegal? || a.Bug? }

  /** No state of the registers and no bus can make the instruction misbehave. */
  ghost predicate NeverStuck<S(!new)>(i: Insn, s: S) {
    forall c: Core<S>, bus: Bus<S> :: !Stuck(Exec(i, c, bus))
  }

  /** The validator is exact: it accepts an instruction just when nothing can make
      it misbehave, and in addition insists that EMIT leaves its unused operands
      empty and that a jump has an immediate target even if it can never be taken. */
  lemma ValidatorIsExact<S(!new)>(i: Insn, s: S)
    ensures ValidInsn(i) <==>
            NeverStuck(i, s)
            && (i.op == OP_EMIT ==> Mode(i.arg1) == Mode(i.arg2) == ARG_NONE)
            && (IsJump(i) ==> Mode(i.arg2) == ARG_IMM)
  {
    var quiet := Bus((d: S, a, r) => Reply(0, d), (d: S, a, r, v) => Reply(0, d));
    if NeverStuck(i, s) {
      assert !Stuck(Exec(i, Core(ZERO_REGS, s, []), quiet));
    }
  }

  /** A validated program never reaches a BUG, never an unknown opcode, and leaves
      the loop only by running off the program, by timeout or by a bus error. */
  lemma {:induction false} ValidatedNeverStuck<S>(prog: Code, pc: u32, c: Core<S>, bus: Bus<S>, budget: nat)
    requires ValidCode(prog)
    ensures var o := Run(prog, pc, c, bus, budget);
            (o.verdict == Finished && o.pc >= |prog|) ||
            (o.verdict == TimedOut && o.left == 0) ||
            (o.verdict.BusError? && o.verdict.err < 0)
    decreases budget
  {
    if pc < |prog| && budget > 0 {
      assert ValidInsn(prog[pc]);
      var a := Exec(prog[pc], c, bus);
      if a.Go? {
        ValidatedNeverStuck(prog, NextPc(pc, a.jump), a.core, bus, budget - 1);
      }
    }
  }
}
