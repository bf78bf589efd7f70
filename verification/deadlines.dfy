/** What a deadline can do to the page register of a paged PHY. Reads, writes and
    dumps have one shape: enter the page, do something on it, leave it again. */
module Deadlines {
  import opened Words
  import opened Isa
  import opened Machine
  import opened Fragment
  import opened Drivers
  import opened Operations
  import opened Bindings
  import opened Meaning
  import opened PagedPhy

  // ---- what happens between switch and restore -----------------------------

  /** With `n` instructions to spend, `f` disturbs neither the page register nor the
      saved page in R1, wherever it is cut off, and it takes exactly `steps`. */
  ghost predicate Calm(k: Config, f: Code, steps: nat, c: Core<Phy>, n: nat) {
    var o := Run(f, 0, c, PagedBus(k), n);
    o.core.dev.page == c.dev.page && o.core.regs[1] == c.regs[1]
    && if n < steps then o.verdict == TimedOut else o == Outcome(Finished, |f|, o.core, n - steps)
  }

  ghost predicate AlwaysCalm(k: Config, f: Code, steps: nat) {
    Closed(f) && forall c: Core<Phy>, n: nat :: Calm(k, f, steps, c, n)
  }

  lemma CalmNothing(k: Config)
    ensures AlwaysCalm(k, [], 0)
  {
    forall c: Core<Phy>, n: nat ensures Calm(k, [], 0, c, n) {
      Halts([], 0, c, PagedBus(k), n);
    }
  }

  /** One instruction, from any state. */
  lemma CalmStep(k: Config, i: Insn, c: Core<Phy>, d: Core<Phy>, n: nat)
    requires Exec(i, c, PagedBus(k)) == Go(d, 0) && d.dev.page == c.dev.page && d.regs[1] == c.regs[1]
    ensures Calm(k, [i], 1, c, n)
  {
    hide Exec, Run, PagedBus;
    Halts([i], 0, c, PagedBus(k), n);
    if n > 0 {
      Step([i], 0, c, PagedBus(k), n);
      Halts([i], 1, d, PagedBus(k), n - 1);
    }
  }

  lemma CalmSeq(k: Config, f: Code, g: Code, m: nat, n: nat)
    requires AlwaysCalm(k, f, m) && AlwaysCalm(k, g, n) && |f| + |g| < MAX_CODE
    ensures AlwaysCalm(k, f + g, m + n)
  {
    hide Calm;
    ClosedConcat(f, g);
    var both, steps := f + g, m + n;
    forall c: Core<Phy>, b: nat ensures Calm(k, both, steps, c, b) {
      CalmBoth(k, f, g, m, n, c, b);
    }
  }

  lemma CalmBoth(k: Config, f: Code, g: Code, m: nat, n: nat, c: Core<Phy>, b: nat)
    requires AlwaysCalm(k, f, m) && AlwaysCalm(k, g, n) && |f| + |g| < MAX_CODE
    ensures Calm(k, f + g, m + n, c, b)
  {
    hide Run, PagedBus, Closed;
    var bus := PagedBus(k);
    assert Calm(k, f, m, c, b);
    RunEmbedded(f + g, 0, f, 0, c, bus, b);
    if b >= m {
      var d := Run(f, 0, c, bus, b).core;
      assert Calm(k, g, n, d, b - m);
      RunEmbedded(f + g, |f|, g, 0, d, bus, b - m);
      Halts(f + g, |f| + |g|, Run(g, 0, d, bus, b - m).core, bus, Run(g, 0, d, bus, b - m).left);
    }
  }

  lemma CalmRead(k: Config, reg: u16)
    ensures AlwaysCalm(k, [INSN(OP_READ, IMM(k.id), IMM(reg), REG(0))], 1)
  {
    hide Exec, INSN, IMM, REG, Calm;
    var i := INSN(OP_READ, IMM(k.id), IMM(reg), REG(0));
    StraightLine([i]);
    forall c: Core<Phy>, n: nat ensures Calm(k, [i], 1, c, n) {
      var l := PhyLoad(k, c.dev, reg);
      BusReads(k, c.dev, reg);
      DoRead(k.id, reg, 0, PagedBus(k), c, l.val, l.next);
      CalmStep(k, i, c, Core(c.regs[0 := l.val], l.next, c.out), n);
    }
  }

  lemma CalmEmit(k: Config)
    ensures AlwaysCalm(k, [EMIT0], 1)
  {
    hide Exec, Calm;
    StraightLine([EMIT0]);
    forall c: Core<Phy>, n: nat ensures Calm(k, [EMIT0], 1, c, n) {
      EmitR0(PagedBus(k), c);
      CalmStep(k, EMIT0, c, c.(out := c.out + [c.regs[0]]), n);
    }
  }

  lemma CalmWrite(k: Config, reg: u16, arg: u18)
    requires reg != k.pageReg && Operand(Paged(k.id, k.pageReg % 0x100), arg)
    ensures AlwaysCalm(k, [INSN(OP_WRITE, IMM(k.id), IMM(reg), arg)], 1)
  {
    hide Exec, INSN, IMM, Calm;
    var i := INSN(OP_WRITE, IMM(k.id), IMM(reg), arg);
    StraightLine([i]);
    forall c: Core<Phy>, n: nat ensures Calm(k, [i], 1, c, n) {
      var v := ArgRI(arg, c.regs).value;
      BusWrites(k, c.dev, reg, v);
      DoWrite(k.id, reg, arg, PagedBus(k), c, v, PhyStore(k, c.dev, reg, v));
      CalmStep(k, i, c, c.(dev := PhyStore(k, c.dev, reg, v)), n);
    }
  }

  lemma {:induction false} CalmSweep(k: Config, first: nat, count: nat)
    requires first + count <= 0x1_0000
    ensures AlwaysCalm(k, SweepCode(k.id, first, count), 2 * count) && |SweepCode(k.id, first, count)| == 2 * count
    decreases count
  {
    hide Calm, INSN, IMM, REG, Closed;
    if count == 0 {
      CalmNothing(k);
    } else {
      var f, read := SweepCode(k.id, first, count - 1), [INSN(OP_READ, IMM(k.id), IMM(first + count - 1), REG(0))];
      CalmSweep(k, first, count - 1);
      CalmRead(k, first + count - 1);
      CalmEmit(k);
      CalmSeq(k, f, read, 2 * (count - 1), 1);
      CalmSeq(k, f + read, [EMIT0], 2 * (count - 1) + 1, 1);
    }
  }

  // ---- entering and leaving ------------------------------------------------

  /** One instruction that the machine executes and continues after, with a budget
      that may already be spent. */
  lemma Chain<S>(f: Code, bus: Bus<S>, pc: nat, c: Core<S>, d: Core<S>, jump: nat, left: int)
    requires pc < |f| && |f| + 1 < MAX_CODE && Exec(f[pc], c, bus) == Go(d, jump) && jump <= 1
    ensures left == 0 ==> Run(f, pc, c, bus, left) == Outcome(TimedOut, pc, c, 0)
    ensures left > 0 ==> Run(f, pc, c, bus, left) == Run(f, pc + 1 + jump, d, bus, left - 1)
  {
    hide Exec, Run;
    if left == 0 { Halts(f, pc, c, bus, 0); }
    if left > 0 { Step(f, pc, c, bus, left); }
  }

  /** A test and the instruction it may skip. */
  lemma TestRun(f: Code, at: nat, bus: Bus<Phy>, same: bool, c: Core<Phy>, d: Core<Phy>, n: nat)
    requires at + 2 == |f| < 0x100 && Exec(f[at], c, bus) == Go(c, if same then 1 else 0)
    requires if same then d == c else Exec(f[at + 1], c, bus) == Go(d, 0)
    ensures var o, steps := Run(f, at, c, bus, n), if same then 1 else 2;
            if n < steps then o.verdict == TimedOut && o.core == c
            else o == Outcome(Finished, |f|, d, n - steps)
  {
    hide Exec, Run;
    var m: int := n;
    Chain(f, bus, at, c, c, if same then 1 else 0, m);
    if !same {
      Chain(f, bus, at + 1, c, d, 0, m - 1);
    }
    if n >= 1 && same {
      Halts(f, at + 2, d, bus, n - 1);
    }
    if n >= 2 && !same {
      Halts(f, at + 2, d, bus, n - 2);
    }
  }

  function EnterSteps(s: Phy, page: u8): nat { if s.page == page then 2 else 3 }
  function LeaveSteps(page: u8, saved: u16): nat { if saved == page then 1 else 2 }

  lemma EnterRun(k: Config, page: u8, c: Core<Phy>, n: nat)
    requires k.pageReg < 0x100
    ensures var o := Run(PagedEnterCode(k.id, k.pageReg, page), 0, c, PagedBus(k), n);
            if n < EnterSteps(c.dev, page) then o.verdict == TimedOut && o.core.dev.page == c.dev.page
            else o == Outcome(Finished, 3, Core(c.regs[1 := c.dev.page], Enter(c.dev, page), c.out), n - EnterSteps(c.dev, page))
  {
    hide Exec, Run, INSN, IMM, REG, PagedBus;
    var f, bus, pr := PagedEnterCode(k.id, k.pageReg, page), PagedBus(k), k.pageReg;
    var r := Core(c.regs[1 := c.dev.page], c.dev, c.out);
    var d := r.(dev := Enter(c.dev, page));
    BusReads(k, c.dev, pr);
    DoRead(k.id, pr, 1, bus, c, c.dev.page, c.dev);
    SameTest(page, r, bus);
    if c.dev.page != page {
      BusWrites(k, c.dev, pr, page);
      Immediate(page, r.regs);
      DoWrite(k.id, pr, IMM(page), bus, r, page, d.dev);
    }
    var m: int := n;
    Chain(f, bus, 0, c, r, 0, m);
    if n > 0 {
      TestRun(f, 1, bus, c.dev.page == page, r, d, n - 1);
    }
  }

  lemma Immediate(v: u16, regs: Regs)
    ensures ArgRI(IMM(v), regs) == Some(v) && ArgRI(REG(1), regs) == Some(regs[1])
  {
  }

  lemma LeaveRun(k: Config, page: u8, c: Core<Phy>, n: nat)
    requires k.pageReg < 0x100
    ensures var o := Run(PagedLeaveCode(k.id, k.pageReg, page), 0, c, PagedBus(k), n);
            o.core.dev.page == if n < LeaveSteps(page, c.regs[1]) then c.dev.page else Leave(c.dev, page, c.regs[1]).page
  {
    hide Exec, Run, INSN, IMM, REG, PagedBus;
    var f, bus, pr := PagedLeaveCode(k.id, k.pageReg, page), PagedBus(k), k.pageReg;
    var d := c.(dev := Leave(c.dev, page, c.regs[1]));
    SameTest(page, c, bus);
    if c.regs[1] != page {
      BusWrites(k, c.dev, pr, c.regs[1]);
      Immediate(0, c.regs);
      DoWrite(k.id, pr, REG(1), bus, c, c.regs[1], d.dev);
    }
    TestRun(f, 0, bus, c.regs[1] == page, c, d, n);
  }

  // ---- the window ----------------------------------------------------------

  /** The page register is wrong exactly between the switch and the restore. */
  predicate PageIsRight(s: Phy, page: u8, steps: nat, budget: nat) {
    s.page == page || budget < 3 || budget >= 3 + steps + 2
  }

  lemma LeaveWindow(k: Config, all: Code, at: nat, page: u8, saved: u16, c: Core<Phy>, n: nat)
    requires k.pageReg < 0x100 && Embedded(all, at, PagedLeaveCode(k.id, k.pageReg, page))
    requires at + |PagedLeaveCode(k.id, k.pageReg, page)| == |all|
    requires c.regs[1] == saved
    ensures Run(all, at, c, PagedBus(k), n).core.dev.page
            == if n < LeaveSteps(page, saved) || saved == page then c.dev.page else saved
  {
    hide Run, PagedBus, PagedLeaveCode, Closed;
    var f, bus := PagedLeaveCode(k.id, k.pageReg, page), PagedBus(k);
    PagedClosed(k.id, k.pageReg, page);
    LeaveRun(k, page, c, n);
    RunEmbedded(all, at, f, 0, c, bus, n);
    var o := Run(f, 0, c, bus, n);
    Halts(all, |all|, o.core, bus, o.left);
  }

  lemma Window(k: Config, page: u8, mid: Code, steps: nat, c: Core<Phy>, budget: nat)
    requires k.pageReg < 0x100 && AlwaysCalm(k, mid, steps) && |mid| + 5 < MAX_CODE
    ensures var f := PagedEnterCode(k.id, k.pageReg, page) + mid + PagedLeaveCode(k.id, k.pageReg, page);
            Run(f, 0, c, PagedBus(k), budget).core.dev.page == c.dev.page <==> PageIsRight(c.dev, page, steps, budget)
  {
    hide Run, PagedBus, PagedEnterCode, PagedLeaveCode, Closed;
    var enter, leave, bus := PagedEnterCode(k.id, k.pageReg, page), PagedLeaveCode(k.id, k.pageReg, page), PagedBus(k);
    var f := enter + mid + leave;
    PagedClosed(k.id, k.pageReg, page);
    EnterRun(k, page, c, budget);
    RunEmbedded(f, 0, enter, 0, c, bus, budget);
    var s := EnterSteps(c.dev, page);
    if budget >= s {
      var d, n := Core(c.regs[1 := c.dev.page], Enter(c.dev, page), c.out), budget - s;
      assert Calm(k, mid, steps, d, n);
      RunEmbedded(f, 3, mid, 0, d, bus, n);
      if n >= steps {
        var e := Run(mid, 0, d, bus, n).core;
        LeaveWindow(k, f, 3 + |mid|, page, c.dev.page, e, n - steps);
      }
    }
  }

  /** A deadline may strike between any two instructions. A read, a write (of another
      register than the page register) and a dump leave the page register wrong in
      exactly one window: after the switch and before the restore. */
  lemma ReadWindow(k: Config, reg: u32, c: Core<Phy>, budget: nat)
    requires k.pageReg < 0x100
    ensures Run(PagedReadCode(k.id, k.pageReg, reg), 0, c, PagedBus(k), budget).core.dev.page == c.dev.page
            <==> PageIsRight(c.dev, PageOf(reg), 1, budget)
  {
    hide Run, PagedEnterCode, PagedLeaveCode, AlwaysCalm;
    CalmRead(k, PageReg(reg));
    Window(k, PageOf(reg), [INSN(OP_READ, IMM(k.id), IMM(PageReg(reg)), REG(0))], 1, c, budget);
  }

  lemma WriteWindow(k: Config, reg: u32, arg: u18, c: Core<Phy>, budget: nat)
    requires k.pageReg < 0x100 && PageReg(reg) != k.pageReg && Operand(Paged(k.id, k.pageReg), arg)
    ensures Run(PagedWriteCode(k.id, k.pageReg, reg, arg), 0, c, PagedBus(k), budget).core.dev.page == c.dev.page
            <==> PageIsRight(c.dev, PageOf(reg), 1, budget)
  {
    hide Run, PagedEnterCode, PagedLeaveCode, AlwaysCalm;
    CalmWrite(k, PageReg(reg), arg);
    Window(k, PageOf(reg), [INSN(OP_WRITE, IMM(k.id), IMM(PageReg(reg)), arg)], 1, c, budget);
  }

  /** A write of the page register itself: its value counts as soon as it is written,
      and is final if no switch was needed. */
  predicate PageWriteIsRight(s: Phy, page: u8, v: u16, budget: nat) {
    budget < 3 || (if s.page == page then v == s.page else budget >= 6 || (budget >= 4 && v == s.page))
  }

  lemma KeepsOperand(id: u16, pageReg: u16, arg: u18, regs: Regs, x: u16)
    requires Operand(Paged(id, pageReg % 0x100), arg)
    ensures ArgRI(arg, regs[1 := x]) == ArgRI(arg, regs) && ArgRI(arg, regs).Some?
  {
  }

  /** One write of the page register. */
  lemma PageWriteStep(k: Config, arg: u18, c: Core<Phy>, n: nat)
    requires ArgRI(arg, c.regs).Some?
    ensures var o := Run([INSN(OP_WRITE, IMM(k.id), IMM(k.pageReg), arg)], 0, c, PagedBus(k), n);
            var d := c.(dev := PhyStore(k, c.dev, k.pageReg, ArgRI(arg, c.regs).value));
            if n < 1 then o.verdict == TimedOut && o.core == c else o == Outcome(Finished, 1, d, n - 1)
  {
    hide Exec, Run, PagedBus, INSN, IMM;
    var i, v := INSN(OP_WRITE, IMM(k.id), IMM(k.pageReg), arg), ArgRI(arg, c.regs).value;
    var d := c.(dev := PhyStore(k, c.dev, k.pageReg, v));
    BusWrites(k, c.dev, k.pageReg, v);
    DoWrite(k.id, k.pageReg, arg, PagedBus(k), c, v, d.dev);
    Halts([i], 0, c, PagedBus(k), n);
    if n > 0 {
      Step([i], 0, c, PagedBus(k), n);
      Halts([i], 1, d, PagedBus(k), n - 1);
    }
  }

  lemma WritePageWindow(k: Config, reg: u32, arg: u18, c: Core<Phy>, budget: nat)
    requires k.pageReg < 0x100 && PageReg(reg) == k.pageReg && Operand(Paged(k.id, k.pageReg), arg)
    ensures Run(PagedWriteCode(k.id, k.pageReg, reg, arg), 0, c, PagedBus(k), budget).core.dev.page == c.dev.page
            <==> PageWriteIsRight(c.dev, PageOf(reg), OperandValue(Paged(k.id, k.pageReg), arg, c.regs), budget)
  {
    hide Run, PagedBus, PagedEnterCode, PagedLeaveCode, Closed, INSN, IMM;
    var page, bus := PageOf(reg), PagedBus(k);
    var enter, leave := PagedEnterCode(k.id, k.pageReg, page), PagedLeaveCode(k.id, k.pageReg, page);
    var mid := [INSN(OP_WRITE, IMM(k.id), IMM(k.pageReg), arg)];
    var f := enter + mid + leave;
    PagedClosed(k.id, k.pageReg, page);
    OneWriteClosed(k, arg);
    EnterRun(k, page, c, budget);
    RunEmbedded(f, 0, enter, 0, c, bus, budget);
    KeepsOperand(k.id, k.pageReg, arg, c.regs, c.dev.page);
    var s := EnterSteps(c.dev, page);
    if budget >= s {
      var d, n := Core(c.regs[1 := c.dev.page], Enter(c.dev, page), c.out), budget - s;
      PageWriteStep(k, arg, d, n);
      RunEmbedded(f, 3, mid, 0, d, bus, n);
      if n >= 1 {
        LeaveWindow(k, f, 4, page, c.dev.page, Run(mid, 0, d, bus, n).core, n - 1);
      }
    }
  }

  lemma OneWriteClosed(k: Config, arg: u18)
    ensures Closed([INSN(OP_WRITE, IMM(k.id), IMM(k.pageReg), arg)])
  {
    StraightLine([INSN(OP_WRITE, IMM(k.id), IMM(k.pageReg), arg)]);
  }

  /** The window of a dump grows by two instructions per register of the range. */
  lemma DumpWindow(k: Config, start: u32, end: u32, c: Core<Phy>, budget: nat)
    requires k.pageReg < 0x100 && end < 0x1_0000
    ensures var count := RangeSize(PageReg(start), end);
            Run(PagedDumpCode(k.id, k.pageReg, start, end), 0, c, PagedBus(k), budget).core.dev.page == c.dev.page
            <==> PageIsRight(c.dev, PageOf(start), 2 * count, budget)
  {
    hide Run, PagedEnterCode, PagedLeaveCode, AlwaysCalm, SweepCode;
    var first, count := PageReg(start), RangeSize(PageReg(start), end);
    CalmSweep(k, first, count);
    Window(k, PageOf(start), SweepCode(k.id, first, count), 2 * count, c, budget);
  }
}
