/** What it means for a driver to drive a device: a binding names the driver, a bus
    with the device on it, and the abstract register operation that the driver's
    fragments must amount to. The generic operations are proved correct once, for
    every binding. */
module Bindings {
  import opened Words
  import opened Isa
  import opened Machine
  import opened Fragment
  import opened Drivers

  datatype Loaded<A> = Loaded(next: A, val: u16)

  /** `ok` are the device states at rest; `abs` is what of the device matters to its
      user; `readable` and `writable` the register numbers covered; `load` and `store`
      the meaning of one access. A load may change the device, so it returns the next
      abstract state. */
  datatype Binding<!S, !A> = Binding(
    drv: Driver,
    bus: Bus<S>,
    ok: S -> bool,
    abs: S -> A,
    readable: u32 -> bool,
    writable: u32 -> bool,
    load: (A, u32) -> Loaded<A>,
    store: (A, u32, u16) -> A)

  /** The first machine register that the driver's fragments leave alone. */
  function Scratch(drv: Driver): nat { if drv.Paged? then 2 else 1 }

  ghost predicate Keeps<S>(c: Core<S>, d: Core<S>, from: nat) {
    forall k | from <= k < 8 :: d.regs[k] == c.regs[k]
  }

  /** What may be passed to `write` as its value: an immediate, R0, or a register
      above the scratch ones; only immediates survive the xrs driver. */
  predicate Operand(drv: Driver, arg: u18) {
    Mode(arg) == ARG_IMM
    || (!drv.Xrs? && Mode(arg) == ARG_REG && (arg % 8 == 0 || Scratch(drv) <= arg % 8))
  }

  function OperandValue(drv: Driver, arg: u18, regs: Regs): u16
    requires Operand(drv, arg)
  {
    ArgRI(arg, regs).value
  }

  ghost predicate Ready<S, A>(b: Binding<S, A>, reg: u32, c: Core<S>) {
    b.readable(reg) && b.ok(c.dev)
  }

  ghost predicate Writable<S, A>(b: Binding<S, A>, reg: u32, c: Core<S>) {
    b.writable(reg) && b.ok(c.dev)
  }

  ghost predicate ReadStep<S, A>(b: Binding<S, A>, reg: u32, c: Core<S>, d: Core<S>) {
    var l := b.load(b.abs(c.dev), reg);
    Leads(ReadCode(b.drv, reg), b.bus, c, d)
    && b.ok(d.dev) && b.abs(d.dev) == l.next && d.regs[0] == l.val
    && d.out == c.out && Keeps(c, d, Scratch(b.drv))
  }

  ghost predicate WriteStep<S, A>(b: Binding<S, A>, reg: u32, arg: u18, c: Core<S>, d: Core<S>)
    requires Operand(b.drv, arg)
  {
    Leads(WriteCode(b.drv, reg, arg), b.bus, c, d)
    && b.ok(d.dev) && b.abs(d.dev) == b.store(b.abs(c.dev), reg, OperandValue(b.drv, arg, c.regs))
    && d.out == c.out && Keeps(c, d, Scratch(b.drv))
  }

  ghost predicate ReadsRight<S(!new), A>(b: Binding<S, A>) {
    forall reg: u32, c: Core<S> :: Ready(b, reg, c) ==> exists d: Core<S> :: ReadStep(b, reg, c, d)
  }

  ghost predicate WritesRight<S(!new), A>(b: Binding<S, A>) {
    forall reg: u32, arg: u18, c: Core<S> ::
      Writable(b, reg, c) && Operand(b.drv, arg) ==> exists d: Core<S> :: WriteStep(b, reg, arg, c, d)
  }

  /** Every access completes from every state at rest, whatever the registers hold,
      and amounts to the abstract operation. */
  ghost predicate Implements<S(!new), A>(b: Binding<S, A>) {
    ReadsRight(b) && WritesRight(b)
  }

  /** Abstract registers that merely store: loads change nothing. */
  ghost predicate Storage<S, A(!new)>(b: Binding<S, A>) {
    (forall a, r :: b.readable(r) ==> b.load(a, r).next == a)
    && (forall a, r, v :: b.writable(r) ==> b.load(b.store(a, r, v), r).val == v)
  }

  // ---- every driver fragment is closed and short ---------------------------

  const MAX_FRAGMENT := 6

  lemma StraightLine(f: Code)
    requires forall i | 0 <= i < |f| :: !IsJump(f[i])
    ensures Closed(f)
  {
  }

  lemma SkipClosed(j: Insn, i: Insn)
    requires j.arg2 == IMM(1) && !IsJump(i)
    ensures Closed([j, i])
  {
  }

  lemma WaitCmdClosed(id: u8)
    ensures Closed(WaitBody(id)) && |WaitBody(id)| == 2 && Closed(WaitCmdCode(id)) && |WaitCmdCode(id)| == 3
    ensures WhileBusy(WaitBody(id)).arg2 == Back(WaitBody(id))
  {
    StraightLine(WaitBody(id));
    ClosedLoop(WaitBody(id), WhileBusy(WaitBody(id)));
  }

  lemma MvlsClosed(id: u16, reg: u32, to: u8, val: u32)
    ensures Closed(MvlsReadToCode(id, reg, to)) && |MvlsReadToCode(id, reg, to)| <= 5
    ensures Closed(MvlsWriteCode(id, reg, val)) && |MvlsWriteCode(id, reg, val)| <= 5
  {
    hide MultiCmd;
    if id == 0 {
      StraightLine(MvlsReadToCode(id, reg, to));
      StraightLine(MvlsWriteCode(id, reg, val));
    } else {
      WaitCmdClosed(id % 0x100);
      var w := WaitCmdCode(id % 0x100);
      hide WaitCmdCode;
      var r := MvlsReadToCode(id, reg, to);
      StraightLine([r[0]]);
      StraightLine([r[4]]);
      ClosedConcat([r[0]], w);
      ClosedConcat([r[0]] + w, [r[4]]);
      assert r == [r[0]] + w + [r[4]];
      var s := MvlsWriteCode(id, reg, val);
      StraightLine([s[0]] + [s[1]]);
      ClosedConcat([s[0]] + [s[1]], w);
      assert s == [s[0]] + [s[1]] + w;
    }
  }

  lemma PagedClosed(id: u16, pr: u8, page: u8)
    ensures Closed(PagedEnterCode(id, pr, page)) && |PagedEnterCode(id, pr, page)| == 3
    ensures Closed(PagedLeaveCode(id, pr, page)) && |PagedLeaveCode(id, pr, page)| == 2
  {
    var e, l := PagedEnterCode(id, pr, page), PagedLeaveCode(id, pr, page);
    SkipClosed(e[1], e[2]);
    SkipClosed(l[0], l[1]);
    StraightLine([e[0]]);
    ClosedConcat([e[0]], [e[1], e[2]]);
    assert e == [e[0]] + [e[1], e[2]];
    assert l == [l[0], l[1]];
  }

  lemma PagedAround(id: u16, pr: u8, page: u8, f: Code)
    requires Closed(f)
    ensures Closed(PagedEnterCode(id, pr, page) + f + PagedLeaveCode(id, pr, page))
  {
    PagedClosed(id, pr, page);
    ClosedConcat(PagedEnterCode(id, pr, page), f);
    ClosedConcat(PagedEnterCode(id, pr, page) + f, PagedLeaveCode(id, pr, page));
  }

  lemma ReadCodeClosed(drv: Driver, reg: u32)
    ensures Closed(ReadCode(drv, reg)) && |ReadCode(drv, reg)| <= MAX_FRAGMENT
  {
    hide PagedEnterCode, PagedLeaveCode, MvlsReadToCode;
    match drv
    case Paged(id, pr) =>
      var r := [INSN(OP_READ, IMM(id), IMM(PageReg(reg)), REG(0))];
      StraightLine(r);
      PagedAround(id, pr, PageOf(reg), r);
      PagedClosed(id, pr, PageOf(reg));
    case Mvls(id) => MvlsClosed(id, reg, 0, 0);
    case _ => StraightLine(ReadCode(drv, reg));
  }

  lemma WriteCodeClosed(drv: Driver, reg: u32, val: u32)
    ensures Closed(WriteCode(drv, reg, val)) && |WriteCode(drv, reg, val)| <= MAX_FRAGMENT
  {
    hide PagedEnterCode, PagedLeaveCode, MvlsWriteCode;
    match drv
    case Paged(id, pr) =>
      var w := [INSN(OP_WRITE, IMM(id), IMM(PageReg(reg)), val)];
      StraightLine(w);
      PagedAround(id, pr, PageOf(reg), w);
      PagedClosed(id, pr, PageOf(reg));
    case Mvls(id) => MvlsClosed(id, reg, 0, val);
    case _ => StraightLine(WriteCode(drv, reg, val));
  }
}
