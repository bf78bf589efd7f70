/** `mdio_nl_eval` and `mdio_nl_cmd_xfer`: the loop that runs a validated program on
    a register array, and the whole transfer around it. */
module Kernel {
  import opened Words
  import opened Isa
  import opened Machine
  import opened Reference
  import opened Transfer

  const ETIMEDOUT := 110

  function ErrorCode(v: Verdict): int {
    match v
    case Finished => 0
    case TimedOut => -ETIMEDOUT
    case BusError(err) => err
    case BadOpcode => -EINVAL
    case Crashed => 0
  }

  /** `__arg_ri`; the precondition is what keeps `BUG()` away. */
  function RI(arg: u18, regs: array<u16>): u16
    requires regs.Length == 8 && (Mode(arg) == ARG_IMM || Mode(arg) == ARG_REG)
    reads regs
  {
    if Mode(arg) == ARG_IMM then Payload(arg) else regs[arg % 8]
  }

  /** `__arg_r`: an index instead of a pointer. */
  function R(arg: u18): (k: nat)
    requires Mode(arg) == ARG_REG
    ensures k < 8
  {
    arg % 8
  }

  ghost function CoreOf<S>(regs: array<u16>, dev: S, out: seq<u16>): Core<S>
    requires regs.Length == 8
    reads regs
  {
    Core(regs[..], dev, out)
  }

  /** One pass through the switch: `ret` below 0 is `goto exit`. */
  method Execute<S>(xfer: Xfer, i: Insn, regs: array<u16>, bus: Bus<S>, dev: S, ghost out: seq<u16>)
      returns (ret: int, dev': S, jump: int, ghost out': seq<u16>)
    requires xfer.Valid() && regs.Length == 8 && ValidInsn(i)
    modifies xfer, regs
    ensures xfer.Valid() && out <= out' && xfer.Trace() == old(xfer.Trace()) + out'[|out|..]
    ensures match Exec(i, Core(old(regs[..]), dev, out), bus)
            case Go(c, j) => ret == 0 && CoreOf(regs, dev', out') == c && jump == j
            case Fault(err, c) => ret == err < 0 && CoreOf(regs, dev', out') == c
            case Illegal => false
            case Bug => false
    ensures var c, d := Core(old(regs[..]), dev, out), CoreOf(regs, dev', out');
            if ret == 0 then Goes(i, bus, 0, c, jump + 1, d)
            else Fails(i, bus, c, ret, dev') && d.regs == c.regs && d.out == c.out
  {
    hide And16, Or16, Add16, Goes, Fails;
    StepGoes(i, bus, 0, Core(regs[..], dev, out));
    ret, dev', jump, out' := 0, dev, 0, out;
    var a := RI(i.arg0, regs);
    if i.op == OP_EMIT {
      ret := xfer.Emit(a);
      out' := out + [a];
      return;
    }
    var b := RI(i.arg1, regs);
    if i.op == OP_READ {
      var r := bus.read(dev, AddrOf(a), b);
      dev', ret := r.dev, r.ret;
      if ret < 0 {
        return;
      }
      regs[R(i.arg2)] := ret % 0x1_0000;
      ret := 0;
    } else if i.op == OP_WRITE {
      var r := bus.write(dev, AddrOf(a), b, RI(i.arg2, regs));
      dev', ret := r.dev, r.ret;
      if ret < 0 {
        return;
      }
      ret := 0;
    } else if i.op == OP_AND {
      regs[R(i.arg2)] := And16(a, b);
    } else if i.op == OP_OR {
      regs[R(i.arg2)] := Or16(a, b);
    } else if i.op == OP_ADD {
      regs[R(i.arg2)] := Add16(a, b);
    } else if i.op == OP_JEQ {
      if a == b {
        jump := Signed(Payload(i.arg2));
      }
    } else {
      if a != b {
        jump := Signed(Payload(i.arg2));
      }
    }
  }

  /** `mdio_nl_eval`: runs a validated program for as long as the deadline allows,
      emitting into the transfer. Return code, device and output are those of the one
      path through the program that the reference knows. */
  method Eval<S>(xfer: Xfer, prog: Code, bus: Bus<S>, dev: S, budget: nat)
      returns (ret: int, dev': S, ghost out: seq<u16>, ghost path: seq<State<S>>)
    requires xfer.Valid() && ValidCode(prog) && |prog| < 0x8000_0000
    modifies xfer
    ensures xfer.Valid() && xfer.Trace() == old(xfer.Trace()) + out
    ensures var o := Run(prog, 0, Core(ZERO_REGS, dev, []), bus, budget);
            ret == ErrorCode(o.verdict) && dev' == o.core.dev && out == o.core.out
    ensures Path(prog, bus, dev, path) && Concludes(prog, bus, path, budget, ret, dev', out)
  {
    hide Exec, Path, Concludes, Goes, Fails;
    ghost var code;
    path, code := RunConcludes(prog, bus, dev, budget);
    var regs := new u16[8](_ => 0);
    var pc: u32 := 0;
    var left := budget;
    ret, dev', out := 0, dev, [];
    ghost var start := Core(ZERO_REGS, dev, []);
    assert regs[..] == ZERO_REGS;
    while pc < |prog|
      invariant xfer.Valid() && fresh(regs) && regs.Length == 8 && ret == 0
      invariant xfer.Trace() == old(xfer.Trace()) + out
      invariant Run(prog, 0, start, bus, budget) == Run(prog, pc, CoreOf(regs, dev', out), bus, left)
      decreases left
    {
      if left == 0 {
        ret := -ETIMEDOUT;
        return;
      }
      left := left - 1;
      ghost var before := out;
      var jump;
      ret, dev', jump, out := Execute(xfer, prog[pc], regs, bus, dev', out);
      assert before + out[|before|..] == out;
      if ret < 0 {
        return;
      }
      pc := NextPc(pc, jump);
    }
  }

  /** `mdio_nl_cmd_xfer` after the bus is found: open, run, close, with sizes in 32-bit
      words, six of which are the headers of a message. `code` and `out` are the
      result of the run. All of `out` always arrives, followed by two more words if the
      error is swallowed. The error and the end marker arrive iff the closing words
      fit. The code returned is that of the close: -90 if no message can hold an end
      marker and 0 otherwise. */
  method CmdXfer<S>(capacity: nat, prog: Code, bus: Bus<S>, dev: S, budget: nat)
      returns (err: int, xfer: Xfer, dev': S, ghost code: int, ghost out: seq<u16>, ghost path: seq<State<S>>)
    requires 6 < capacity && ValidCode(prog) && |prog| < 0x8000_0000
    ensures var o := Run(prog, 0, Core(ZERO_REGS, dev, []), bus, budget);
            code == ErrorCode(o.verdict) && dev' == o.core.dev && out == o.core.out
    ensures Path(prog, bus, dev, path) && Concludes(prog, bus, path, budget, code, dev', out)
    ensures var size: nat := capacity - 6;
            var room := size - if out == [] then 0 else (|out| - 1) % size + 1;
            var fits := if code == 0 then room >= 4 else room >= 6 || (room < 2 && size >= 6);
            (Delivered(xfer.sent, out, code) <==> fits)
            && (forall i | 0 <= i < |xfer.sent| :: Parseable(xfer.sent[i]))
            && AllData(xfer.sent) == Data(out) + (if code != 0 && !fits && size >= 2 then ErrorAttr(code) else [])
            && err == if fits || size >= 4 then 0 else -90
  {
    hide Run, Close, Parseable, Path, Concludes, Delivered, AllData;
    xfer := new Xfer(capacity);
    err, dev', out, path := Eval(xfer, prog, bus, dev, budget);
    code := err;
    assert [] + out == out;
    xfer.LastFillIs();
    CloseDeliversIff(capacity, xfer.parts, xfer.tail, err);
    DataConserved(capacity, xfer.parts, xfer.tail, err);
    CloseReturns(capacity, xfer.tail, err);
    err := xfer.CloseMsg(true, err);
  }
}
