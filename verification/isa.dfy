/** Instruction encoding: include/linux/mdio-netlink.h and src/mdio/mdio.h. */
module Isa {
  import opened Words

  const OP_READ: u8 := 1
  const OP_WRITE: u8 := 2
  const OP_AND: u8 := 3
  const OP_OR: u8 := 4
  const OP_ADD: u8 := 5
  const OP_JEQ: u8 := 6
  const OP_JNE: u8 := 7
  const OP_EMIT: u8 := 8
  const OP_MAX: u8 := 8

  const ARG_NONE := 0
  const ARG_REG := 1
  const ARG_IMM := 2

  /** The bit fields of `struct mdio_nl_insn`; the two reserved bits are never read. */
  datatype Insn = Insn(op: u8, arg0: u18, arg1: u18, arg2: u18)

  type Code = seq<Insn>

  function Mode(arg: u18): int { arg / 0x1_0000 }

  function Payload(arg: u18): u16 { arg % 0x1_0000 }

  function REG(r: int): (a: u18)
    ensures Mode(a) == ARG_REG && Payload(a) == r % 0x1_0000
    ensures a % 8 == r % 8
  {
    ARG_REG * 0x1_0000 + r % 0x1_0000
  }

  function IMM(n: int): (a: u18)
    ensures Mode(a) == ARG_IMM && Payload(a) == n % 0x1_0000
  {
    ARG_IMM * 0x1_0000 + n % 0x1_0000
  }

  function GOTO(from: int, to: int): u18 { IMM(to - from - 1) }

  /** A jump operand depends on the distance only. */
  lemma GotoIsRelative(at: int, from: int, to: int)
    ensures GOTO(at + from, at + to) == GOTO(from, to)
  {
  }

  /** Storing 32-bit operands into 18-bit fields drops the upper bits; what `REG`,
      `IMM` and `GOTO` produce fits without loss. */
  function INSN(op: u8, a0: nat, a1: nat, a2: nat): (i: Insn)
    ensures a0 < 0x4_0000 && a1 < 0x4_0000 && a2 < 0x4_0000 ==> i == Insn(op, a0, a1, a2)
  {
    Insn(op, a0 % 0x4_0000, a1 % 0x4_0000, a2 % 0x4_0000)
  }

  predicate IsJump(i: Insn) { i.op == OP_JEQ || i.op == OP_JNE }

  function Offset(i: Insn): int { Signed(Payload(i.arg2)) }
}
