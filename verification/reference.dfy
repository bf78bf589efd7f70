/** What the byte code means, in numbers only: a second account of the instruction
    set of kernel/mdio-netlink.c that shares nothing with the step function, and the
    proof that every run is what it says. */
module Reference {
  import opened Words
  import opened Isa
  import opened Machine

  // ---- one instruction -----------------------------------------------------

  /** 2 in the upper two bits of an operand marks an immediate, 1 a register. */
  function Value(arg: u18, regs: Regs): u16 {
    if arg < 0x2_0000 then regs[arg % 8] else arg % 0x1_0000
  }

  /** Ids 0x8000 to 0x83ff are Clause 45 addresses, all others Clause 22 ones. */
  function Target(id: u16): Addr {
    if id / 0x400 == 32 then C45((id - 0x8000) / 32, id % 32) else C22(id)
  }

  function Distance(arg: u18): int {
    var n := arg % 0x1_0000;
    if n < 0x8000 then n else n - 0x1_0000
  }

  /** Only register `k` may differ. */
  ghost predicate OnlyReg<S>(c: Core<S>, k: nat, d: Core<S>)
    requires k < 8
  {
    d.dev == c.dev && d.out == c.out && d.regs == c.regs[k := d.regs[k]]
  }

  /** The instruction at `pc` succeeds in state `c` and leads to state `d` at `next`. */
  ghost predicate Goes<S>(i: Insn, bus: Bus<S>, pc: int, c: Core<S>, next: int, d: Core<S>) {
    var a, b, k := Value(i.arg0, c.regs), Value(i.arg1, c.regs), i.arg2 % 8;
    if i.op == 1 then
      var r := bus.read(c.dev, Target(a), b);
      r.ret >= 0 && next == pc + 1 && d == Core(c.regs[k := r.ret % 0x1_0000], r.dev, c.out)
    else if i.op == 2 then
      var r := bus.write(c.dev, Target(a), b, Value(i.arg2, c.regs));
      r.ret >= 0 && next == pc + 1 && d == Core(c.regs, r.dev, c.out)
    else if i.op == 3 then
      next == pc + 1 && OnlyReg(c, k, d) && forall n: nat :: Bit(d.regs[k], n) <==> Bit(a, n) && Bit(b, n)
    else if i.op == 4 then
      next == pc + 1 && OnlyReg(c, k, d) && forall n: nat :: Bit(d.regs[k], n) <==> Bit(a, n) || Bit(b, n)
    else if i.op == 5 then
      next == pc + 1 && OnlyReg(c, k, d) && d.regs[k] == (a as int + b) % 0x1_0000
    else if i.op == 6 then
      next == pc + 1 + (if a == b then Distance(i.arg2) else 0) && d == c
    else if i.op == 7 then
      next == pc + 1 + (if a != b then Distance(i.arg2) else 0) && d == c
    else
      i.op == 8 && next == pc + 1 && d == Core(c.regs, c.dev, c.out + [a])
  }

  /** The bus call of the instruction answers `e` below 0 and leaves the device in
      `end`. */
  ghost predicate Fails<S>(i: Insn, bus: Bus<S>, c: Core<S>, e: int, end: S) {
    var a, b := Value(i.arg0, c.regs), Value(i.arg1, c.regs);
    e < 0
    && if i.op == 1 then bus.read(c.dev, Target(a), b) == Reply(e, end)
       else i.op == 2 && bus.write(c.dev, Target(a), b, Value(i.arg2, c.regs)) == Reply(e, end)
  }

  lemma OperandValues(arg: u18, regs: Regs)
    requires Mode(arg) == ARG_REG || Mode(arg) == ARG_IMM
    ensures ArgRI(arg, regs) == Some(Value(arg, regs))
  {
  }

  lemma Targets(id: u16)
    ensures AddrOf(id) == Target(id)
  {
  }

  lemma Distances(arg: u18)
    ensures Signed(Payload(arg)) == Distance(arg)
  {
  }

  lemma SameReg<S>(c: Core<S>, k: nat, d: Core<S>, e: Core<S>)
    requires k < 8 && OnlyReg(c, k, d) && OnlyReg(c, k, e)
    requires forall n: nat :: Bit(d.regs[k], n) <==> Bit(e.regs[k], n)
    ensures d == e
  {
    hide Bit;
    Pow2Values();
    BitsDetermine(16, d.regs[k], e.regs[k]);
  }

  /** The operand modes that the static check lets through, by opcode: 0 none, 1 a
      register, 2 an immediate. */
  lemma ValidatorTable(i: Insn)
    ensures ValidInsn(i) <==>
            var a, b, r := i.arg0 / 0x1_0000, i.arg1 / 0x1_0000, i.arg2 / 0x1_0000;
            1 <= i.op <= 8 && 1 <= a <= 2
            && if i.op == 8 then b == 0 && r == 0
               else 1 <= b <= 2
                    && if i.op == 2 then 1 <= r <= 2 else if i.op == 6 || i.op == 7 then r == 2 else r == 1
  {
  }

  /** The step function makes exactly the moves of the reference. */
  lemma StepGoes<S>(i: Insn, bus: Bus<S>, pc: int, c: Core<S>)
    requires ValidInsn(i)
    ensures match Exec(i, c, bus)
            case Go(d, jump) => Goes(i, bus, pc, c, pc + jump + 1, d)
            case Fault(e, d) => Fails(i, bus, c, e, d.dev) && d.regs == c.regs && d.out == c.out
            case Illegal => false
            case Bug => false
  {
    hide Bit, And16, Or16, Value, Target, Distance;
    if i.op != OP_EMIT {
      OperandValues(i.arg1, c.regs);
    }
    OperandValues(i.arg0, c.regs);
    if i.op == OP_WRITE {
      OperandValues(i.arg2, c.regs);
    }
    var a, b := Value(i.arg0, c.regs), Value(i.arg1, c.regs);
    Targets(a);
    Distances(i.arg2);
    hide ArgRI, AddrOf;
    RegisterArithmetic(a, b);
  }

  /** There is at most one move, and none out of a failing bus call. */
  lemma GoesOnce<S>(i: Insn, bus: Bus<S>, pc: int, c: Core<S>, m: int, d: Core<S>, n: int, e: Core<S>)
    requires Goes(i, bus, pc, c, m, d) && Goes(i, bus, pc, c, n, e)
    ensures m == n && d == e
  {
    hide Bit, Value, Target, Distance;
    if i.op == 3 || i.op == 4 {
      SameReg(c, i.arg2 % 8, d, e);
    }
  }

  lemma GoesOrFails<S>(i: Insn, bus: Bus<S>, pc: int, c: Core<S>, m: int, d: Core<S>, e: int, end: S)
    requires Goes(i, bus, pc, c, m, d)
    ensures !Fails(i, bus, c, e, end)
  {
    hide Bit, Value, Target, Distance;
  }

  // ---- whole runs ----------------------------------------------------------

  type State<S> = (int, Core<S>)

  /** A run without a failure, state by state: it starts at 0 with all registers 0 and
      nothing emitted, and all but its last position are in the program. */
  ghost predicate Path<S>(prog: Code, bus: Bus<S>, dev: S, path: seq<State<S>>) {
    |path| > 0 && path[0] == (0, Core([0, 0, 0, 0, 0, 0, 0, 0], dev, []))
    && forall n | 0 < n < |path| :: Move(prog, bus, path[n - 1], path[n])
  }

  ghost predicate Move<S>(prog: Code, bus: Bus<S>, p: State<S>, q: State<S>) {
    0 <= p.0 < |prog| && Goes(prog[p.0], bus, p.0, p.1, q.0, q.1)
  }

  /** A run with `budget` instructions to spend ends after `path`: outside of the
      program with 0, when the budget is spent with -110, or with what the first bus
      call that fails answers. */
  ghost predicate Concludes<S>(prog: Code, bus: Bus<S>, path: seq<State<S>>, budget: nat, ret: int, end: S, out: seq<u16>)
    requires |path| > 0
  {
    var (pc, c) := path[|path| - 1];
    out == c.out
    && if !(0 <= pc < |prog|) then |path| - 1 <= budget && ret == 0 && end == c.dev
       else if |path| - 1 == budget then ret == -110 && end == c.dev
       else |path| <= budget && Fails(prog[pc], bus, c, ret, end)
  }

  lemma {:induction false} OnPath<S>(prog: Code, bus: Bus<S>, dev: S, path: seq<State<S>>, n: nat, budget: nat)
    requires ValidCode(prog) && Path(prog, bus, dev, path) && n < |path| && n <= budget
    ensures IdealRun(prog, 0, Core(ZERO_REGS, dev, []), bus, budget)
            == IdealRun(prog, path[n].0, path[n].1, bus, budget - n)
    decreases n
  {
    hide Exec, Goes, ValidInsn;
    if n > 0 {
      OnPath(prog, bus, dev, path, n - 1, budget);
      var p, q := path[n - 1], path[n];
      assert Move(prog, bus, p, q);
      StepGoes(prog[p.0], bus, p.0, p.1);
      StepIsMove(prog[p.0], bus, p.0, p.1, q.0, q.1);
    }
  }

  lemma StepIsMove<S>(i: Insn, bus: Bus<S>, pc: int, c: Core<S>, next: int, d: Core<S>)
    requires ValidInsn(i) && Goes(i, bus, pc, c, next, d)
    ensures Exec(i, c, bus) == Go(d, next - pc - 1)
  {
    hide Exec, Goes, Fails;
    StepGoes(i, bus, pc, c);
    var a := Exec(i, c, bus);
    if a.Fault? {
      GoesOrFails(i, bus, pc, c, next, d, a.err, a.core.dev);
    } else {
      GoesOnce(i, bus, pc, c, pc + a.jump + 1, a.core, next, d);
    }
  }

  /** What a verdict is to the caller. */
  ghost predicate Returns(v: Verdict, ret: int) {
    match v
    case Finished => ret == 0
    case TimedOut => ret == -110
    case BusError(e) => ret == e
    case _ => false
  }

  lemma {:induction false} Follow<S>(prog: Code, bus: Bus<S>, dev: S, path: seq<State<S>>, budget: nat)
      returns (full: seq<State<S>>, ret: int)
    requires ValidCode(prog) && Path(prog, bus, dev, path) && |path| - 1 <= budget
    ensures Path(prog, bus, dev, full)
    ensures var o := IdealRun(prog, 0, Core(ZERO_REGS, dev, []), bus, budget);
            Returns(o.verdict, ret) && Concludes(prog, bus, full, budget, ret, o.core.dev, o.core.out)
    decreases budget - |path| + 1
  {
    hide Exec, Goes, ValidInsn, Fails;
    var n := |path| - 1;
    var pc, c := path[n].0, path[n].1;
    OnPath(prog, bus, dev, path, n, budget);
    full, ret := path, 0;
    if 0 <= pc < |prog| && n == budget {
      ret := -110;
    } else if 0 <= pc < |prog| {
      StepGoes(prog[pc], bus, pc, c);
      var a := Exec(prog[pc], c, bus);
      if a.Go? {
        var more := path + [(pc + a.jump + 1, a.core)];
        assert Move(prog, bus, path[n], more[n + 1]);
        full, ret := Follow(prog, bus, dev, more, budget);
      } else {
        ret := a.err;
      }
    }
  }

  /** Every run of a validated program concludes as the reference says. */
  lemma RunConcludes<S>(prog: Code, bus: Bus<S>, dev: S, budget: nat) returns (path: seq<State<S>>, ret: int)
    requires ValidCode(prog) && |prog| < 0x8000_0000
    ensures Path(prog, bus, dev, path)
    ensures var o := Run(prog, 0, Core(ZERO_REGS, dev, []), bus, budget);
            Returns(o.verdict, ret) && Concludes(prog, bus, path, budget, ret, o.core.dev, o.core.out)
  {
    hide Run, IdealRun, Goes, Fails;
    var start := [(0, Core(ZERO_REGS, dev, []))];
    assert Path(prog, bus, dev, start);
    path, ret := Follow(prog, bus, dev, start, budget);
    WrappingPcRefinesIdeal(prog, 0, Core(ZERO_REGS, dev, []), bus, budget);
  }

  lemma {:induction false} SamePath<S>(prog: Code, bus: Bus<S>, dev: S, p: seq<State<S>>, q: seq<State<S>>, n: nat)
    requires Path(prog, bus, dev, p) && Path(prog, bus, dev, q) && n < |p| && n < |q|
    ensures p[n] == q[n]
  {
    hide Goes;
    if n > 0 {
      SamePath(prog, bus, dev, p, q, n - 1);
      assert Move(prog, bus, p[n - 1], p[n]) && Move(prog, bus, q[n - 1], q[n]);
      var pc, c := p[n - 1].0, p[n - 1].1;
      GoesOnce(prog[pc], bus, pc, c, p[n].0, p[n].1, q[n].0, q[n].1);
    }
  }

  lemma NotLonger<S>(prog: Code, bus: Bus<S>, dev: S, p: seq<State<S>>, q: seq<State<S>>, budget: nat,
                     ret: int, end: S, out: seq<u16>)
    requires Path(prog, bus, dev, p) && Path(prog, bus, dev, q) && |q| - 1 <= budget
    requires Concludes(prog, bus, p, budget, ret, end, out)
    ensures |p| >= |q|
  {
    hide Goes, Fails;
    if |p| < |q| {
      var n := |p| - 1;
      SamePath(prog, bus, dev, p, q, n);
      assert Move(prog, bus, q[n], q[n + 1]);
      var pc, c := q[n].0, q[n].1;
      GoesOrFails(prog[pc], bus, pc, c, q[n + 1].0, q[n + 1].1, ret, end);
    }
  }

  /** And there is only one conclusion. */
  lemma ConcludesOnce<S>(prog: Code, bus: Bus<S>, dev: S, budget: nat, p: seq<State<S>>, ret: int, end: S, out: seq<u16>,
                         q: seq<State<S>>, ret': int, end': S, out': seq<u16>)
    requires Path(prog, bus, dev, p) && Concludes(prog, bus, p, budget, ret, end, out)
    requires Path(prog, bus, dev, q) && Concludes(prog, bus, q, budget, ret', end', out')
    ensures p == q && ret == ret' && end == end' && out == out'
  {
    hide Goes;
    NotLonger(prog, bus, dev, p, q, budget, ret, end, out);
    NotLonger(prog, bus, dev, q, p, budget, ret', end', out');
    forall n | 0 <= n < |p| ensures p[n] == q[n] {
      SamePath(prog, bus, dev, p, q, n);
    }
  }

  /** The first bus call to fail ends the run: the verdict is its answer, registers
      and output are those of before it, the device is as the bus left it. */
  lemma FirstFailureEnds<S>(prog: Code, bus: Bus<S>, dev: S, path: seq<State<S>>, budget: nat, e: int, end: S)
    requires ValidCode(prog) && |prog| < 0x8000_0000 && Path(prog, bus, dev, path) && |path| <= budget
    requires var (pc, c) := path[|path| - 1];
             0 <= pc < |prog| && Fails(prog[pc], bus, c, e, end)
    ensures var (pc, c) := path[|path| - 1];
            Run(prog, 0, Core(ZERO_REGS, dev, []), bus, budget)
            == Outcome(BusError(e), pc, Core(c.regs, end, c.out), budget - |path|)
  {
    hide Run, Goes;
    var n := |path| - 1;
    var pc, c := path[n].0, path[n].1;
    OnPath(prog, bus, dev, path, n, budget);
    FailureIsFault(prog[pc], bus, pc, c, e, end);
    hide Exec, Fails;
    WrappingPcRefinesIdeal(prog, 0, Core(ZERO_REGS, dev, []), bus, budget);
  }

  lemma FailureIsFault<S>(i: Insn, bus: Bus<S>, pc: int, c: Core<S>, e: int, end: S)
    requires ValidInsn(i) && Fails(i, bus, c, e, end)
    ensures Exec(i, c, bus) == Fault(e, Core(c.regs, end, c.out))
  {
    hide Exec, Goes;
    StepGoes(i, bus, pc, c);
    var a := Exec(i, c, bus);
    if a.Go? {
      GoesOrFails(i, bus, pc, c, pc + a.jump + 1, a.core, e, end);
    }
  }
}
