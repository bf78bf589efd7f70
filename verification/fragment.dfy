/** Relocatable code. The drivers push fragments wherever the program happens to
    end, so a fragment has to mean the same at every offset. */
module Fragment {
  import opened Words
  import opened Isa
  import opened Machine

  /** Program lengths are signed 32-bit on both sides. */
  const MAX_CODE := 0x8000_0000

  /** Every jump lands inside the fragment or exactly at its end. */
  predicate Closed(f: Code) {
    forall i | 0 <= i < |f| && IsJump(f[i]) :: 0 <= i + 1 + Offset(f[i]) <= |f|
  }

  lemma ClosedConcat(f: Code, g: Code)
    requires Closed(f) && Closed(g)
    ensures Closed(f + g)
  {
    var h := f + g;
    forall i | 0 <= i < |h| && IsJump(h[i]) ensures 0 <= i + 1 + Offset(h[i]) <= |h| {
      if i < |f| {
        assert h[i] == f[i];
      } else {
        assert h[i] == g[i - |f|];
      }
    }
  }

  lemma ClosedStep<S>(f: Code, i: nat, c: Core<S>, bus: Bus<S>)
    requires Closed(f) && i < |f|
    ensures var a := Exec(f[i], c, bus);
            a.Go? ==> -0x8000 <= a.jump < 0x8000 && 0 <= i + a.jump + 1 <= |f|
  {
    JumpRange(f[i], c, bus);
  }

  /** One step whose successor is known. */
  lemma Step<S>(prog: Code, pc: nat, c: Core<S>, bus: Bus<S>, budget: nat)
    requires pc < |prog| < MAX_CODE && budget > 0
    requires Exec(prog[pc], c, bus).Go? && 0 <= pc + Exec(prog[pc], c, bus).jump + 1 < MAX_CODE
    ensures var a := Exec(prog[pc], c, bus);
            Run(prog, pc, c, bus, budget) == Run(prog, pc + a.jump + 1, a.core, bus, budget - 1)
  {
    hide Exec, Stop, NextPc, IsJump, Offset;
    var a := Exec(prog[pc], c, bus);
    JumpRange(prog[pc], c, bus);
    NextPcIsIdeal(pc, a.jump);
  }

  /** The ways in which a run stops where it is. */
  lemma Halts<S>(prog: Code, pc: u32, c: Core<S>, bus: Bus<S>, budget: nat)
    ensures pc >= |prog| ==> Run(prog, pc, c, bus, budget) == Outcome(Finished, pc, c, budget)
    ensures pc < |prog| && budget == 0 ==> Run(prog, pc, c, bus, budget) == Outcome(TimedOut, pc, c, 0)
    ensures pc < |prog| && budget > 0 && !Exec(prog[pc], c, bus).Go? ==>
              Run(prog, pc, c, bus, budget) == Stop(Exec(prog[pc], c, bus), pc, c, budget - 1)
  {
    hide Exec, Stop;
  }

  ghost predicate Embedded(all: Code, at: nat, f: Code) {
    at + |f| <= |all| < MAX_CODE && forall k | 0 <= k < |f| :: all[at + k] == f[k]
  }

  /** Wherever a closed fragment is embedded, running from its start is running the
      fragment alone and then whatever follows: same registers, bus and output,
      same instruction count, same timeout and same bus error. */
  lemma {:induction false} RunEmbedded<S>(all: Code, at: nat, f: Code, i: nat, c: Core<S>, bus: Bus<S>, budget: nat)
    requires Closed(f) && i <= |f| && Embedded(all, at, f)
    ensures var o := Run(f, i, c, bus, budget);
            var whole := Run(all, at + i, c, bus, budget);
            if o.verdict == Finished
            then o.pc == |f| && whole == Run(all, at + |f|, o.core, bus, o.left)
            else whole == o.(pc := at + o.pc)
    decreases budget
  {
    hide Exec, Run;
    if i < |f| {
      assert all[at + i] == f[i];
    }
    Halts(f, i, c, bus, budget);
    Halts(all, at + i, c, bus, budget);
    if i < |f| && budget > 0 && Exec(f[i], c, bus).Go? {
      var a := Exec(f[i], c, bus);
      ClosedStep(f, i, c, bus);
      Step(f, i, c, bus, budget);
      Step(all, at + i, c, bus, budget);
      RunEmbedded(all, at, f, i + a.jump + 1, a.core, bus, budget - 1);
    }
  }

  /** The same for a fragment pushed between any prefix and any suffix. */
  lemma Relocate<S>(pre: Code, f: Code, suf: Code, c: Core<S>, bus: Bus<S>, budget: nat)
    requires Closed(f) && |pre + f + suf| < MAX_CODE
    ensures var o := Run(f, 0, c, bus, budget);
            var whole := Run(pre + f + suf, |pre|, c, bus, budget);
            if o.verdict == Finished
            then o.pc == |f| && whole == Run(pre + f + suf, |pre| + |f|, o.core, bus, o.left)
            else whole == o.(pc := |pre| + o.pc)
  {
    hide Run;
    RunEmbedded(pre + f + suf, |pre|, f, 0, c, bus, budget);
  }

  // ---- completed runs ------------------------------------------------------

  ghost predicate Ends<S>(f: Code, bus: Bus<S>, c: Core<S>, n: nat, d: Core<S>) {
    Run(f, 0, c, bus, n) == Outcome(Finished, |f|, d, 0)
  }

  /** Given enough time, `f` started in `c` runs off its end in state `d`. */
  ghost predicate Leads<S>(f: Code, bus: Bus<S>, c: Core<S>, d: Core<S>) {
    exists n: nat :: Ends(f, bus, c, n, d)
  }

  lemma {:induction false} MoreTime<S>(f: Code, pc: u32, c: Core<S>, bus: Bus<S>, n: nat, extra: nat)
    requires Run(f, pc, c, bus, n).verdict == Finished
    ensures var o := Run(f, pc, c, bus, n);
            Run(f, pc, c, bus, n + extra) == o.(left := o.left + extra)
    decreases n
  {
    hide Exec;
    if pc < |f| {
      var a := Exec(f[pc], c, bus);
      MoreTime(f, NextPc(pc, a.jump), a.core, bus, n - 1, extra);
    }
  }

  lemma {:induction false} LessTime<S>(f: Code, pc: u32, c: Core<S>, bus: Bus<S>, n: nat, b: nat)
    requires Run(f, pc, c, bus, n).verdict == Finished && Run(f, pc, c, bus, n).left == 0 && b < n
    ensures Run(f, pc, c, bus, b).verdict == TimedOut
    decreases n
  {
    hide Exec;
    if pc < |f| && b > 0 {
      var a := Exec(f[pc], c, bus);
      LessTime(f, NextPc(pc, a.jump), a.core, bus, n - 1, b - 1);
    }
  }

  /** What `Leads` promises for an actual run under any deadline: there is a number
      of instructions from which on the run finishes in `d`; below it, it times out. */
  lemma LeadsMeaning<S>(f: Code, bus: Bus<S>, c: Core<S>, d: Core<S>) returns (n: nat)
    requires Leads(f, bus, c, d)
    ensures forall b: nat :: b >= n ==> Run(f, 0, c, bus, b) == Outcome(Finished, |f|, d, b - n)
    ensures forall b: nat :: b < n ==> Run(f, 0, c, bus, b).verdict == TimedOut
  {
    n :| Ends(f, bus, c, n, d);
    forall b: nat | b >= n ensures Run(f, 0, c, bus, b) == Outcome(Finished, |f|, d, b - n) {
      MoreTime(f, 0, c, bus, n, b - n);
    }
    forall b: nat | b < n ensures Run(f, 0, c, bus, b).verdict == TimedOut {
      LessTime(f, 0, c, bus, n, b);
    }
  }

  /** A completed run has one possible final state. */
  lemma LeadsUnique<S>(f: Code, bus: Bus<S>, c: Core<S>, d: Core<S>, e: Core<S>)
    requires Leads(f, bus, c, d) && Leads(f, bus, c, e)
    ensures d == e
  {
    var n: nat :| Ends(f, bus, c, n, d);
    var m: nat :| Ends(f, bus, c, m, e);
    MoreTime(f, 0, c, bus, n, m);
    MoreTime(f, 0, c, bus, m, n);
  }

  lemma EmbeddedEnds<S>(all: Code, at: nat, f: Code, bus: Bus<S>, c: Core<S>, n: nat, d: Core<S>, extra: nat)
    requires Closed(f) && Embedded(all, at, f) && Ends(f, bus, c, n, d)
    ensures Run(all, at, c, bus, n + extra) == Run(all, at + |f|, d, bus, extra)
  {
    hide Run;
    MoreTime(f, 0, c, bus, n, extra);
    RunEmbedded(all, at, f, 0, c, bus, n + extra);
  }

  // ---- composing fragments -------------------------------------------------

  lemma LeadsNothing<S>(bus: Bus<S>, c: Core<S>)
    ensures Leads([], bus, c, c)
  {
    assert Ends([], bus, c, 0, c);
  }

  lemma LeadsSeq<S>(f: Code, g: Code, bus: Bus<S>, c: Core<S>, d: Core<S>, e: Core<S>)
    requires Closed(f) && Closed(g) && |f| + |g| < MAX_CODE
    requires Leads(f, bus, c, d) && Leads(g, bus, d, e)
    ensures Leads(f + g, bus, c, e) && Closed(f + g)
  {
    hide Exec;
    ClosedConcat(f, g);
    var n: nat :| Ends(f, bus, c, n, d);
    var m: nat :| Ends(g, bus, d, m, e);
    EmbeddedEnds(f + g, 0, f, bus, c, n, d, m);
    EmbeddedEnds(f + g, |f|, g, bus, d, m, e, 0);
    assert Ends(f + g, bus, c, n + m, e);
  }

  lemma LeadsOne<S>(i: Insn, bus: Bus<S>, c: Core<S>, d: Core<S>)
    requires Exec(i, c, bus) == Go(d, 0)
    ensures Leads([i], bus, c, d)
  {
    assert Run([i], 1, d, bus, 0) == Outcome(Finished, 1, d, 0);
    assert Ends([i], bus, c, 1, d);
  }

  lemma LeadsThen<S>(f: Code, i: Insn, bus: Bus<S>, c: Core<S>, d: Core<S>, e: Core<S>)
    requires Closed(f) && |f| + 1 < MAX_CODE && !IsJump(i)
    requires Leads(f, bus, c, d) && Exec(i, d, bus) == Go(e, 0)
    ensures Leads(f + [i], bus, c, e) && Closed(f + [i])
  {
    LeadsOne(i, bus, d, e);
    LeadsSeq(f, [i], bus, c, d, e);
  }

  /** READ at an immediate address that answers `v`. */
  lemma DoRead<S>(id: u16, reg: u16, k: nat, bus: Bus<S>, c: Core<S>, v: u16, next: S)
    requires k < 8 && bus.read(c.dev, AddrOf(id), reg) == Reply(v, next)
    ensures Exec(INSN(OP_READ, IMM(id), IMM(reg), REG(k)), c, bus) == Go(Core(c.regs[k := v], next, c.out), 0)
  {
    hide And16, Or16, Add16, INSN, REG, IMM;
  }

  /** WRITE to an immediate address that accepts it. */
  lemma DoWrite<S>(id: u16, reg: u16, arg: u18, bus: Bus<S>, c: Core<S>, v: u16, next: S)
    requires ArgRI(arg, c.regs) == Some(v) && bus.write(c.dev, AddrOf(id), reg, v) == Reply(0, next)
    ensures Exec(INSN(OP_WRITE, IMM(id), IMM(reg), arg), c, bus) == Go(c.(dev := next), 0)
  {
    hide And16, Or16, Add16, INSN, REG, IMM;
  }

  /** A jump over one instruction, taken. */
  lemma LeadsSkip<S>(j: Insn, i: Insn, bus: Bus<S>, c: Core<S>)
    requires Exec(j, c, bus) == Go(c, 1)
    ensures Leads([j, i], bus, c, c)
  {
    assert Run([j, i], 2, c, bus, 0) == Outcome(Finished, 2, c, 0);
    assert Ends([j, i], bus, c, 1, c);
  }

  /** A jump over one instruction, not taken. */
  lemma LeadsNoSkip<S>(j: Insn, i: Insn, bus: Bus<S>, c: Core<S>, d: Core<S>)
    requires Exec(j, c, bus) == Go(c, 0) && Exec(i, c, bus) == Go(d, 0)
    ensures Leads([j, i], bus, c, d)
  {
    assert Run([j, i], 2, d, bus, 0) == Outcome(Finished, 2, d, 0);
    assert Run([j, i], 1, c, bus, 1) == Outcome(Finished, 2, d, 0);
    assert Ends([j, i], bus, c, 2, d);
  }

  // ---- loops ---------------------------------------------------------------

  /** The longest body that a 16-bit jump can go back over. */
  const MAX_BODY := 0x7fff

  /** The operand of the jump that closes a loop around `f`. */
  function Back(f: Code): u18 { GOTO(|f|, 0) }

  lemma BackOffset(f: Code)
    requires |f| < MAX_BODY
    ensures Signed(Payload(Back(f))) == -|f| - 1
  {
  }

  lemma ClosedLoop(f: Code, j: Insn)
    requires Closed(f) && |f| < MAX_BODY && j.arg2 == Back(f)
    ensures Closed(f + [j])
  {
    BackOffset(f);
    var h := f + [j];
    forall i | 0 <= i < |h| && IsJump(h[i]) ensures 0 <= i + 1 + Offset(h[i]) <= |h| {
      if i < |f| {
        assert h[i] == f[i];
      }
    }
  }

  lemma LoopExit<S>(f: Code, j: Insn, bus: Bus<S>, c: Core<S>, d: Core<S>)
    requires Closed(f) && |f| < MAX_BODY
    requires Leads(f, bus, c, d) && Exec(j, d, bus) == Go(d, 0)
    ensures Leads(f + [j], bus, c, d)
  {
    hide Exec;
    var n: nat :| Ends(f, bus, c, n, d);
    var h := f + [j];
    EmbeddedEnds(h, 0, f, bus, c, n, d, 1);
    assert h[|f|] == j;
    Step(h, |f|, d, bus, 1);
    assert Ends(h, bus, c, n + 1, d);
  }

  lemma LoopAgain<S>(f: Code, j: Insn, bus: Bus<S>, c: Core<S>, d: Core<S>, e: Core<S>)
    requires Closed(f) && |f| < MAX_BODY && j.arg2 == Back(f)
    requires Leads(f, bus, c, d) && Exec(j, d, bus) == Go(d, -|f| - 1)
    requires Leads(f + [j], bus, d, e)
    ensures Leads(f + [j], bus, c, e)
  {
    hide Exec;
    var n: nat :| Ends(f, bus, c, n, d);
    var h := f + [j];
    var m: nat :| Ends(h, bus, d, m, e);
    EmbeddedEnds(h, 0, f, bus, c, n, d, 1 + m);
    assert h[|f|] == j;
    Step(h, |f|, d, bus, 1 + m);
    assert Ends(h, bus, c, n + 1 + m, e);
  }
}
