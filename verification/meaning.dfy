/** The generic operations mean what the manual says, for every driver and device
    whose binding is implemented. */
module Meaning {
  import opened Words
  import opened Isa
  import opened Machine
  import opened Fragment
  import opened Drivers
  import opened Operations
  import opened Bindings

  lemma RunRead<S(!new), A>(b: Binding<S, A>, reg: u32, c: Core<S>) returns (d: Core<S>)
    requires Implements(b) && Ready(b, reg, c)
    ensures ReadStep(b, reg, c, d)
  {
    assert ReadsRight(b);
    d :| ReadStep(b, reg, c, d);
  }

  lemma RunWrite<S(!new), A>(b: Binding<S, A>, reg: u32, arg: u18, c: Core<S>) returns (d: Core<S>)
    requires Implements(b) && Writable(b, reg, c) && Operand(b.drv, arg)
    ensures WriteStep(b, reg, arg, c, d)
  {
    assert WritesRight(b);
    d :| WriteStep(b, reg, arg, c, d);
  }

  function SetReg<S>(c: Core<S>, k: nat, v: u16): Core<S>
    requires k < 8
  {
    c.(regs := c.regs[k := v])
  }

  lemma EmitR0<S>(bus: Bus<S>, c: Core<S>)
    ensures Exec(EMIT0, c, bus) == Go(c.(out := c.out + [c.regs[0]]), 0) && !IsJump(EMIT0)
  {
  }

  // ---- raw -----------------------------------------------------------------

  lemma RawReadMeaning<S(!new), A>(b: Binding<S, A>, reg: u32, c: Core<S>) returns (d: Core<S>)
    requires Implements(b) && Ready(b, reg, c)
    ensures Leads(RawCode(b.drv, reg, ReadOnly), b.bus, c, d) && b.ok(d.dev)
    ensures var l := b.load(b.abs(c.dev), reg);
            d.out == c.out + [l.val] && b.abs(d.dev) == l.next
  {
    hide ReadCode, Leads;
    var r := RunRead(b, reg, c);
    d := r.(out := r.out + [r.regs[0]]);
    ReadCodeClosed(b.drv, reg);
    LeadsThen(ReadCode(b.drv, reg), EMIT0, b.bus, c, r, d);
  }

  lemma ExecMask<S>(val: u16, mask: u16, c: Core<S>, bus: Bus<S>)
    ensures Exec(AndMask(mask), c, bus) == Go(SetReg(c, 0, And16(c.regs[0], mask)), 0)
    ensures Exec(OrValue(val), c, bus) == Go(SetReg(c, 0, Or16(c.regs[0], val)), 0)
  {
    hide And16, Or16;
  }

  /** read; AND; OR: R0 ends up holding (old & mask) | val. */
  lemma Modify<S(!new), A>(b: Binding<S, A>, reg: u32, val: u16, mask: u16, c: Core<S>) returns (m: Core<S>)
    requires Implements(b) && Ready(b, reg, c)
    ensures var l := b.load(b.abs(c.dev), reg);
            var f := ReadCode(b.drv, reg) + [AndMask(mask)] + [OrValue(val)];
            Closed(f) && |f| <= MAX_FRAGMENT + 2 && Leads(f, b.bus, c, m)
            && b.ok(m.dev) && b.abs(m.dev) == l.next && m.out == c.out
            && m.regs[0] == Or16(And16(l.val, mask), val)
  {
    hide ReadCode, Leads, Exec;
    var r := RunRead(b, reg, c);
    var masked := SetReg(r, 0, And16(r.regs[0], mask));
    m := SetReg(masked, 0, Or16(masked.regs[0], val));
    ReadCodeClosed(b.drv, reg);
    ExecMask(val, mask, r, b.bus);
    ExecMask(val, mask, masked, b.bus);
    LeadsThen(ReadCode(b.drv, reg), AndMask(mask), b.bus, c, r, masked);
    LeadsThen(ReadCode(b.drv, reg) + [AndMask(mask)], OrValue(val), b.bus, c, masked, m);
  }

  /** `raw REG DATA/MASK` writes (read(REG) & MASK) | DATA and `raw REG DATA` writes
      DATA; neither emits anything. The masked form hands R0 to the driver's write,
      which has to consume it before its own scratch work destroys it. `v` is the value
      written: it has the bits of DATA, and those of the old value under the mask. */
  lemma RawWriteMeaning<S(!new), A>(b: Binding<S, A>, reg: u32, val: u16, mask: u16, c: Core<S>) returns (d: Core<S>, v: u16)
    requires Implements(b) && Writable(b, reg, c)
    requires mask != 0 ==> Ready(b, reg, c) && !b.drv.Xrs?
    ensures Leads(RawCode(b.drv, reg, Data(val, mask)), b.bus, c, d) && b.ok(d.dev) && d.out == c.out
    ensures var l := b.load(b.abs(c.dev), reg);
            b.abs(d.dev) == b.store(if mask == 0 then b.abs(c.dev) else l.next, reg, v)
            && (forall i: nat :: Bit(v, i) <==> Bit(val, i) || (Bit(l.val, i) && Bit(mask, i)))
            && v == if mask == 0 then val else Or16(And16(l.val, mask), val)
  {
    hide ReadCode, WriteCode, Leads, Bit, Or16, And16;
    var old16 := b.load(b.abs(c.dev), reg).val;
    MaskedBits(old16, val, mask);
    v := if mask == 0 then val else Or16(And16(old16, mask), val);
    if mask == 0 {
      d := RunWrite(b, reg, IMM(val), c);
    } else {
      var m := Modify(b, reg, val, mask, c);
      d := RunWrite(b, reg, REG(0), m);
      WriteCodeClosed(b.drv, reg, REG(0));
      LeadsSeq(ReadCode(b.drv, reg) + [AndMask(mask)] + [OrValue(val)], WriteCode(b.drv, reg, REG(0)), b.bus, c, m, d);
    }
  }

  /** On registers that store, the shortcut for an absent mask is the same operation:
      in all cases bit i of the target is bit i of DATA or of both old value and MASK. */
  lemma RawWriteOnStorage<S(!new), A(!new)>(b: Binding<S, A>, reg: u32, val: u16, mask: u16, c: Core<S>) returns (d: Core<S>, v: u16)
    requires Implements(b) && Storage(b) && Ready(b, reg, c) && Writable(b, reg, c) && (mask != 0 ==> !b.drv.Xrs?)
    ensures Leads(RawCode(b.drv, reg, Data(val, mask)), b.bus, c, d) && b.ok(d.dev) && d.out == c.out
    ensures var a := b.abs(c.dev);
            b.abs(d.dev) == b.store(a, reg, v)
            && (forall i: nat :: Bit(v, i) <==> Bit(val, i) || (Bit(b.load(a, reg).val, i) && Bit(mask, i)))
  {
    hide RawCode, Leads, Bit, Or16, And16;
    d, v := RawWriteMeaning(b, reg, val, mask, c);
    assert b.load(b.abs(c.dev), reg).next == b.abs(c.dev);
  }

  // ---- dump ----------------------------------------------------------------

  /** `count` loads in a row, from register `first` up. */
  function LoadRange<S, A>(b: Binding<S, A>, a: A, first: nat, count: nat): (r: (A, seq<u16>))
    requires first + count <= 0x1_0000_0000
    ensures |r.1| == count
  {
    if count == 0 then (a, [])
    else
      var (a', vals) := LoadRange(b, a, first, count - 1);
      var l := b.load(a', first + count - 1);
      (l.next, vals + [l.val])
  }

  lemma UnrolledClosed(drv: Driver, first: nat, count: nat)
    requires first + count <= 0x1_0000_0000
    ensures Closed(UnrolledDump(drv, first, count))
    ensures |UnrolledDump(drv, first, count)| <= count * (MAX_FRAGMENT + 1)
  {
    hide ReadCode;
    if count > 0 {
      UnrolledClosed(drv, first, count - 1);
      var f, r := UnrolledDump(drv, first, count - 1), ReadCode(drv, first + count - 1);
      ReadCodeClosed(drv, first + count - 1);
      StraightLine([EMIT0]);
      ClosedConcat(f, r);
      ClosedConcat(f + r, [EMIT0]);
    }
  }

  /** The unrolled dump emits exactly the registers of the range, in order. */
  lemma {:induction false} DumpMeaning<S(!new), A>(b: Binding<S, A>, first: nat, count: nat, c: Core<S>) returns (d: Core<S>)
    requires Implements(b) && b.ok(c.dev)
    requires first + count <= 0x1_0000_0000 && |UnrolledDump(b.drv, first, count)| < MAX_CODE
    requires forall r: u32 | first <= r < first + count :: b.readable(r)
    ensures Leads(UnrolledDump(b.drv, first, count), b.bus, c, d) && b.ok(d.dev)
    ensures var (a, vals) := LoadRange(b, b.abs(c.dev), first, count);
            d.out == c.out + vals && b.abs(d.dev) == a
    decreases count
  {
    hide ReadCode, Leads, Closed;
    if count == 0 {
      d := c;
      LeadsNothing(b.bus, c);
    } else {
      var reg := first + count - 1;
      var e := DumpMeaning(b, first, count - 1, c);
      var r := RunRead(b, reg, e);
      d := r.(out := r.out + [r.regs[0]]);
      var f := UnrolledDump(b.drv, first, count - 1);
      UnrolledClosed(b.drv, first, count - 1);
      ReadCodeClosed(b.drv, reg);
      LeadsSeq(f, ReadCode(b.drv, reg), b.bus, c, e, r);
      LeadsThen(f + ReadCode(b.drv, reg), EMIT0, b.bus, c, r, d);
    }
  }

  lemma {:induction false} LoadsOfStorage<S, A(!new)>(b: Binding<S, A>, a: A, first: nat, count: nat)
    requires Storage(b) && first + count <= 0x1_0000_0000
    requires forall r: u32 | first <= r < first + count :: b.readable(r)
    ensures LoadRange(b, a, first, count).0 == a
    ensures forall i | 0 <= i < count :: LoadRange(b, a, first, count).1[i] == b.load(a, first + i).val
    decreases count
  {
    if count > 0 {
      LoadsOfStorage(b, a, first, count - 1);
      assert b.readable(first + count - 1);
    }
  }

  /** `dump START-END` by a driver without a dump of its own: on registers that store,
      the program emits one word per register, word i being register START + i, and
      changes nothing. */
  lemma DumpWords<S(!new), A(!new)>(b: Binding<S, A>, start: u32, end: u32, c: Core<S>) returns (d: Core<S>, words: seq<u16>)
    requires Implements(b) && Storage(b) && b.ok(c.dev) && !b.drv.Paged? && start <= end
    requires |DumpCode(b.drv, start, end)| < 0x8000_0000
    requires forall r: u32 | start <= r <= end :: b.readable(r)
    ensures Leads(DumpCode(b.drv, start, end), b.bus, c, d) && b.ok(d.dev) && b.abs(d.dev) == b.abs(c.dev)
    ensures d.out == c.out + words && |words| == end - start + 1
    ensures forall i | 0 <= i <= end - start :: words[i] == b.load(b.abs(c.dev), start + i).val
  {
    hide Leads, UnrolledDump, Implements, LoadRange, Storage;
    var count := end - start + 1;
    assert DumpCode(b.drv, start, end) == UnrolledDump(b.drv, start, count);
    d := DumpMeaning(b, start, count, c);
    LoadsOfStorage(b, b.abs(c.dev), start, count);
    words := LoadRange(b, b.abs(c.dev), start, count).1;
  }

  // ---- bench ---------------------------------------------------------------

  /** What `n` loads in a row report when every value other than `reference` is
      reported, and the abstract state after them. */
  function Mismatches<S, A>(b: Binding<S, A>, reg: u32, a: A, reference: u16, n: nat): (A, seq<u16>) {
    if n == 0 then (a, [])
    else
      var l := b.load(a, reg);
      var (a', rest) := Mismatches(b, reg, l.next, reference, n - 1);
      (a', (if l.val == reference then [] else [l.val]) + rest)
  }

  lemma BenchBodyClosed(drv: Driver, reg: u32)
    ensures Closed(BenchBody(drv, reg)) && |BenchBody(drv, reg)| <= MAX_FRAGMENT + 3
  {
    hide ReadCode;
    ReadCodeClosed(drv, reg);
    SkipClosed(SKIP_IF_SAME, EMIT0);
    ClosedConcat(ReadCode(drv, reg), [SKIP_IF_SAME, EMIT0]);
    StraightLine([COUNT]);
    ClosedConcat(ReadCode(drv, reg) + [SKIP_IF_SAME, EMIT0], [COUNT]);
  }

  lemma CompareAndEmit<S>(bus: Bus<S>, c: Core<S>) returns (d: Core<S>)
    ensures Leads([SKIP_IF_SAME, EMIT0], bus, c, d)
    ensures d == c.(out := c.out + if c.regs[0] == c.regs[7] then [] else [c.regs[0]])
  {
    if c.regs[0] == c.regs[7] {
      d := c;
      LeadsSkip(SKIP_IF_SAME, EMIT0, bus, c);
      assert c.out + [] == c.out;
    } else {
      d := c.(out := c.out + [c.regs[0]]);
      LeadsNoSkip(SKIP_IF_SAME, EMIT0, bus, c, d);
    }
  }

  lemma BenchBodyMeaning<S(!new), A>(b: Binding<S, A>, reg: u32, c: Core<S>) returns (d: Core<S>)
    requires Implements(b) && Ready(b, reg, c)
    ensures Leads(BenchBody(b.drv, reg), b.bus, c, d) && b.ok(d.dev)
    ensures var l := b.load(b.abs(c.dev), reg);
            b.abs(d.dev) == l.next
            && d.out == c.out + (if l.val == c.regs[7] then [] else [l.val])
            && d.regs[7] == c.regs[7] && d.regs[6] == Add16(c.regs[6], 1)
  {
    hide ReadCode, Leads, Closed;
    var r := RunRead(b, reg, c);
    var e := CompareAndEmit(b.bus, r);
    d := SetReg(e, 6, Add16(e.regs[6], 1));
    ReadCodeClosed(b.drv, reg);
    SkipClosed(SKIP_IF_SAME, EMIT0);
    LeadsSeq(ReadCode(b.drv, reg), [SKIP_IF_SAME, EMIT0], b.bus, c, r, e);
    LeadsThen(ReadCode(b.drv, reg) + [SKIP_IF_SAME, EMIT0], COUNT, b.bus, c, e, d);
  }

  /** The loop runs its body once for every count still missing from R6. */
  lemma {:induction false} BenchLoopMeaning<S(!new), A>(b: Binding<S, A>, reg: u32, n: nat, c: Core<S>) returns (d: Core<S>)
    requires Implements(b) && Ready(b, reg, c)
    requires 0 < n <= 1000 && c.regs[6] == 1000 - n
    ensures Leads(BenchLoop(b.drv, reg), b.bus, c, d) && b.ok(d.dev)
    ensures var (a, vals) := Mismatches(b, reg, b.abs(c.dev), c.regs[7], n);
            b.abs(d.dev) == a && d.out == c.out + vals
    decreases n
  {
    hide Leads, Closed, BenchBody;
    var body := BenchBody(b.drv, reg);
    var again := BenchAgain(body);
    BenchBodyClosed(b.drv, reg);
    var e := BenchBodyMeaning(b, reg, c);
    if n == 1 {
      d := e;
      LoopExit(body, again, b.bus, c, e);
    } else {
      BackOffset(body);
      d := BenchLoopMeaning(b, reg, n - 1, e);
      LoopAgain(body, again, b.bus, c, e, d);
    }
  }

  lemma ZeroCount<S>(bus: Bus<S>, c: Core<S>)
    ensures Exec(ZERO_COUNT, c, bus) == Go(SetReg(c, 6, 0), 0)
  {
  }

  lemma BenchStartClosed(drv: Driver, reg: u32, data: Option<u32>)
    ensures Closed(BenchStart(drv, reg, data)) && |BenchStart(drv, reg, data)| <= MAX_FRAGMENT + 1
  {
    hide ReadCode, WriteCode;
    match data
    case None =>
      ReadCodeClosed(drv, reg);
      StraightLine([KEEP_REFERENCE]);
      ClosedConcat(ReadCode(drv, reg), [KEEP_REFERENCE]);
    case Some(val) =>
      WriteCodeClosed(drv, reg, REG(7));
      StraightLine([SetReference(val)]);
      ClosedConcat([SetReference(val)], WriteCode(drv, reg, REG(7)));
  }

  /** The abstract state and reference value with which the loop starts. */
  function BenchReference<S, A>(b: Binding<S, A>, reg: u32, data: Option<u16>, a: A): (A, u16) {
    match data
    case Some(val) => (b.store(a, reg, val), val)
    case None => var l := b.load(a, reg); (l.next, l.val)
  }

  lemma BenchStartMeaning<S(!new), A>(b: Binding<S, A>, reg: u32, data: Option<u16>, c: Core<S>) returns (d: Core<S>)
    requires Implements(b) && Ready(b, reg, c)
    requires data.Some? ==> Writable(b, reg, c) && !b.drv.Xrs?
    ensures Leads(BenchStart(b.drv, reg, data), b.bus, c, d) && b.ok(d.dev) && d.out == c.out
    ensures BenchReference(b, reg, data, b.abs(c.dev)) == (b.abs(d.dev), d.regs[7])
  {
    hide ReadCode, WriteCode, Leads, Closed;
    match data
    case None =>
      var r := RunRead(b, reg, c);
      d := SetReg(r, 7, r.regs[0]);
      ReadCodeClosed(b.drv, reg);
      LeadsThen(ReadCode(b.drv, reg), KEEP_REFERENCE, b.bus, c, r, d);
    case Some(val) =>
      var s := SetReg(c, 7, val);
      d := RunWrite(b, reg, REG(7), s);
      WriteCodeClosed(b.drv, reg, REG(7));
      StraightLine([SetReference(val)]);
      LeadsOne(SetReference(val), b.bus, c, s);
      LeadsSeq([SetReference(val)], WriteCode(b.drv, reg, REG(7)), b.bus, c, s, d);
  }

  lemma SetsReference<S>(val: u16, c: Core<S>, bus: Bus<S>)
    ensures Exec(SetReference(val), c, bus) == Go(SetReg(c, 7, val), 0)
  {
  }

  /** From the end of the preparation on, whatever it was: exactly 1000 loads. */
  lemma BenchFrom<S(!new), A>(b: Binding<S, A>, reg: u32, data: Option<u16>, c: Core<S>, s: Core<S>) returns (d: Core<S>)
    requires Implements(b) && b.readable(reg) && b.ok(s.dev)
    requires Leads(BenchStart(b.drv, reg, data), b.bus, c, s)
    ensures Leads(BenchCode(b.drv, reg, data), b.bus, c, d) && b.ok(d.dev)
    ensures var (end, vals) := Mismatches(b, reg, b.abs(s.dev), s.regs[7], 1000);
            b.abs(d.dev) == end && d.out == s.out + vals
  {
    hide Leads, Closed, BenchStart, Exec, Mismatches, BenchBody;
    var z := SetReg(s, 6, 0);
    d := BenchLoopMeaning(b, reg, 1000, z);
    BenchStartClosed(b.drv, reg, data);
    ZeroCount(b.bus, s);
    LeadsThen(BenchStart(b.drv, reg, data), ZERO_COUNT, b.bus, c, s, z);
    BenchBodyClosed(b.drv, reg);
    var body := BenchBody(b.drv, reg);
    ClosedLoop(body, BenchAgain(body));
    LeadsSeq(BenchStart(b.drv, reg, data) + [ZERO_COUNT], BenchLoop(b.drv, reg), b.bus, c, z, d);
  }

  /** The whole benchmark: exactly 1000 loads after the reference is established,
      reporting in order those that differ from it. */
  lemma BenchMeaning<S(!new), A>(b: Binding<S, A>, reg: u32, data: Option<u16>, c: Core<S>) returns (d: Core<S>)
    requires Implements(b) && Ready(b, reg, c)
    requires data.Some? ==> Writable(b, reg, c) && !b.drv.Xrs?
    ensures Leads(BenchCode(b.drv, reg, data), b.bus, c, d) && b.ok(d.dev)
    ensures var (start, reference) := BenchReference(b, reg, data, b.abs(c.dev));
            var (end, vals) := Mismatches(b, reg, start, reference, 1000);
            b.abs(d.dev) == end && d.out == c.out + vals
  {
    hide Leads, BenchStart, BenchCode, Mismatches, Implements;
    var s := BenchStartMeaning(b, reg, data, c);
    d := BenchFrom(b, reg, data, c, s);
  }

  lemma {:induction false} NothingDiffers<S, A(!new)>(b: Binding<S, A>, reg: u32, a: A, n: nat)
    requires Storage(b) && b.readable(reg)
    ensures Mismatches(b, reg, a, b.load(a, reg).val, n) == (a, [])
    decreases n
  {
    if n > 0 {
      assert b.load(a, reg).next == a;
      NothingDiffers(b, reg, a, n - 1);
      var none: seq<u16> := [];
      assert none + none == none;
    }
  }

  /** On registers that store, the benchmark reports nothing, and the only change
      to the device is the optional initial write. */
  lemma BenchOnStorage<S(!new), A(!new)>(b: Binding<S, A>, reg: u32, data: Option<u16>, c: Core<S>) returns (d: Core<S>)
    requires Implements(b) && Storage(b) && Ready(b, reg, c)
    requires data.Some? ==> Writable(b, reg, c) && !b.drv.Xrs?
    ensures Leads(BenchCode(b.drv, reg, data), b.bus, c, d) && b.ok(d.dev) && d.out == c.out
    ensures b.abs(d.dev) == if data.Some? then b.store(b.abs(c.dev), reg, data.value) else b.abs(c.dev)
  {
    hide Leads, BenchCode, Mismatches;
    d := BenchMeaning(b, reg, data, c);
    var (start, reference) := BenchReference(b, reg, data, b.abs(c.dev));
    assert reference == b.load(start, reg).val && (data.None? ==> start == b.abs(c.dev));
    NothingDiffers(b, reg, start, 1000);
    assert c.out + [] == c.out;
  }

  // ---- sessions: any sequence of accesses ----------------------------------

  datatype Access = Load(reg: u32) | Put(reg: u32, val: u16)

  ghost predicate Covered<S, A>(b: Binding<S, A>, op: Access) {
    if op.Load? then b.readable(op.reg) else b.writable(op.reg)
  }

  /** A program made of driver reads, each followed by an EMIT, and driver writes. */
  function SessionCode(drv: Driver, ops: seq<Access>): Code {
    if ops == [] then []
    else
      SessionCode(drv, ops[..|ops| - 1]) + match ops[|ops| - 1]
      case Load(reg) => ReadCode(drv, reg) + [EMIT0]
      case Put(reg, val) => WriteCode(drv, reg, IMM(val))
  }

  function SessionResult<S, A>(b: Binding<S, A>, a: A, ops: seq<Access>): (A, seq<u16>) {
    if ops == [] then (a, [])
    else
      var (a', vals) := SessionResult(b, a, ops[..|ops| - 1]);
      match ops[|ops| - 1]
      case Load(reg) => var l := b.load(a', reg); (l.next, vals + [l.val])
      case Put(reg, val) => (b.store(a', reg, val), vals)
  }

  lemma {:induction false} SessionMeaning<S(!new), A>(b: Binding<S, A>, ops: seq<Access>, c: Core<S>) returns (d: Core<S>)
    requires Implements(b) && b.ok(c.dev) && |SessionCode(b.drv, ops)| < MAX_CODE
    requires forall k | 0 <= k < |ops| :: Covered(b, ops[k])
    ensures Leads(SessionCode(b.drv, ops), b.bus, c, d) && b.ok(d.dev)
    ensures Closed(SessionCode(b.drv, ops))
    ensures var (a, vals) := SessionResult(b, b.abs(c.dev), ops);
            b.abs(d.dev) == a && d.out == c.out + vals
  {
    hide Leads, Closed, ReadCode, WriteCode;
    if ops == [] {
      d := c;
      LeadsNothing(b.bus, c);
      StraightLine([]);
    } else {
      var init, op := ops[..|ops| - 1], ops[|ops| - 1];
      assert Covered(b, op);
      var e := SessionMeaning(b, init, c);
      var f := SessionCode(b.drv, init);
      match op {
        case Load(reg) =>
          var r := RunRead(b, reg, e);
          d := r.(out := r.out + [r.regs[0]]);
          ReadCodeClosed(b.drv, reg);
          LeadsThen(ReadCode(b.drv, reg), EMIT0, b.bus, e, r, d);
          LeadsSeq(f, ReadCode(b.drv, reg) + [EMIT0], b.bus, c, e, d);
        case Put(reg, val) =>
          d := RunWrite(b, reg, IMM(val), e);
          WriteCodeClosed(b.drv, reg, IMM(val));
          LeadsSeq(f, WriteCode(b.drv, reg, IMM(val)), b.bus, c, e, d);
      }
    }
  }

  lemma {:induction false} SameSession<S, T, A(!new)>(b: Binding<S, A>, b': Binding<T, A>, a: A, ops: seq<Access>)
    requires forall k | 0 <= k < |ops| :: Covered(b, ops[k])
    requires forall x, r :: b.readable(r) ==> b.load(x, r) == b'.load(x, r)
    requires forall x, r, v :: b.writable(r) ==> b.store(x, r, v) == b'.store(x, r, v)
    ensures SessionResult(b, a, ops) == SessionResult(b', a, ops)
  {
    if ops != [] {
      assert Covered(b, ops[|ops| - 1]);
      SameSession(b, b', a, ops[..|ops| - 1]);
    }
  }

  /** Two drivers with the same abstract operation are interchangeable: any sequence
      of accesses emits the same words and leaves the same abstract state. */
  lemma SessionsRefine<S(!new), T(!new), A(!new)>(
      b: Binding<S, A>, b': Binding<T, A>, ops: seq<Access>, c: Core<S>, c': Core<T>)
      returns (d: Core<S>, d': Core<T>)
    requires Implements(b) && Implements(b') && b.ok(c.dev) && b'.ok(c'.dev)
    requires |SessionCode(b.drv, ops)| < MAX_CODE && |SessionCode(b'.drv, ops)| < MAX_CODE
    requires forall k | 0 <= k < |ops| :: Covered(b, ops[k]) && Covered(b', ops[k])
    requires forall x, r :: b.readable(r) ==> b.load(x, r) == b'.load(x, r)
    requires forall x, r, v :: b.writable(r) ==> b.store(x, r, v) == b'.store(x, r, v)
    requires b.abs(c.dev) == b'.abs(c'.dev) && c.out == c'.out
    ensures Leads(SessionCode(b.drv, ops), b.bus, c, d) && Leads(SessionCode(b'.drv, ops), b'.bus, c', d')
    ensures b.ok(d.dev) && b'.ok(d'.dev) && b.abs(d.dev) == b'.abs(d'.dev) && d.out == d'.out
  {
    hide Leads, SessionCode, SessionResult, Implements;
    d := SessionMeaning(b, ops, c);
    d' := SessionMeaning(b', ops, c');
    SameSession(b, b', b.abs(c.dev), ops);
  }
}
