/** The fixed status programs of src/mdio/bus.c, src/mdio/phy.c and
    src/mdio/paged-phy.c, on any device that answers. */
module Status {
  import opened Words
  import opened Isa
  import opened Machine
  import opened Fragment
  import opened Operations
  import opened Bindings
  import opened Devices
  import opened Meaning

  type Place = (Addr, u16)

  /** Loading a list of registers in order; each load may change the device. */
  function LoadAll<T>(dev: Device<T>, t: T, places: seq<Place>): (r: (T, seq<u16>))
    ensures |r.1| == |places|
  {
    if places == [] then (t, [])
    else
      var l := dev.load(t, places[0].0, places[0].1);
      var (t', vals) := LoadAll(dev, l.next, places[1..]);
      (t', [l.val] + vals)
  }

  lemma {:induction false} LoadAllConcat<T>(dev: Device<T>, t: T, p: seq<Place>, q: seq<Place>)
    ensures var (t', vals) := LoadAll(dev, t, p);
            var (t'', rest) := LoadAll(dev, t', q);
            LoadAll(dev, t, p + q) == (t'', vals + rest)
    decreases |p|
  {
    if p == [] {
      assert p + q == q;
      assert [] + LoadAll(dev, t, q).1 == LoadAll(dev, t, q).1;
    } else {
      assert (p + q)[1..] == p[1..] + q;
      var l := dev.load(t, p[0].0, p[0].1);
      LoadAllConcat(dev, l.next, p[1..], q);
      var (t', vals) := LoadAll(dev, l.next, p[1..]);
      var (t'', rest) := LoadAll(dev, t', q);
      assert [l.val] + (vals + rest) == [l.val] + vals + rest;
    }
  }

  /** On registers that store, a list of loads is a list of look-ups. */
  lemma {:induction false} LoadAllOfStorage(m: Memory, places: seq<Place>)
    ensures LoadAll(StorageDevice(), m, places).0 == m
    ensures forall i | 0 <= i < |places| :: LoadAll(StorageDevice(), m, places).1[i] == Lookup(m, places[i])
    decreases |places|
  {
    if places != [] {
      LoadAllOfStorage(m, places[1..]);
    }
  }

  // ---- one READ and EMIT ---------------------------------------------------

  function Fetch(arg0: u18, arg1: u18): Code { [INSN(OP_READ, arg0, arg1, REG(0))] + [EMIT0] }

  function PlaceOf(arg0: u18, arg1: u18, regs: Regs): Option<Place> {
    var a, b := ArgRI(arg0, regs), ArgRI(arg1, regs);
    if a.Some? && b.Some? then Some((AddrOf(a.value), b.value)) else None
  }

  lemma FetchMeaning<T>(dev: Device<T>, arg0: u18, arg1: u18, c: Core<T>) returns (d: Core<T>)
    requires PlaceOf(arg0, arg1, c.regs).Some?
    ensures Leads(Fetch(arg0, arg1), DirectBus(dev), c, d) && Closed(Fetch(arg0, arg1))
    ensures var p := PlaceOf(arg0, arg1, c.regs).value;
            var l := dev.load(c.dev, p.0, p.1);
            d == Core(c.regs[0 := l.val], l.next, c.out + [l.val])
  {
    hide INSN, Leads, And16, Or16, Add16;
    var bus, p := DirectBus(dev), PlaceOf(arg0, arg1, c.regs).value;
    var l := dev.load(c.dev, p.0, p.1);
    assert bus.read(c.dev, p.0, p.1) == Reply(l.val, l.next);
    var read := INSN(OP_READ, arg0, arg1, REG(0));
    var e := Core(c.regs[0 := l.val], l.next, c.out);
    d := e.(out := e.out + [l.val]);
    StraightLine([read]);
    LeadsOne(read, bus, c, e);
    LeadsThen([read], EMIT0, bus, c, e, d);
  }

  /** A fragment that reads and emits `places` and otherwise only clobbers R0. */
  ghost predicate Emits<T>(f: Code, dev: Device<T>, places: seq<Place>, c: Core<T>, d: Core<T>) {
    var (t, vals) := LoadAll(dev, c.dev, places);
    Closed(f) && Leads(f, DirectBus(dev), c, d) && d.dev == t && d.out == c.out + vals && Keeps(c, d, 1)
  }

  lemma EmitsMore<T>(f: Code, dev: Device<T>, places: seq<Place>, arg0: u18, arg1: u18, p: Place, c: Core<T>, e: Core<T>)
      returns (d: Core<T>)
    requires Emits(f, dev, places, c, e) && |f| + 2 < MAX_CODE
    requires PlaceOf(arg0, arg1, e.regs) == Some(p)
    ensures Emits(f + Fetch(arg0, arg1), dev, places + [p], c, d)
  {
    hide Leads, Closed, Fetch;
    d := FetchMeaning(dev, arg0, arg1, e);
    FetchSizes();
    LeadsSeq(f, Fetch(arg0, arg1), DirectBus(dev), c, e, d);
    LoadAllConcat(dev, c.dev, places, [p]);
    assert c.out + (LoadAll(dev, c.dev, places).1 + [d.regs[0]]) == e.out + [d.regs[0]];
  }

  // ---- src/mdio/bus.c: the probe -------------------------------------------

  const MDIO_DEV_MAX := 32

  const ZERO_R1: Insn := INSN(OP_ADD, IMM(0), IMM(0), REG(1))
  const NEXT_R1: Insn := INSN(OP_ADD, REG(1), IMM(1), REG(1))

  function ProbeBody(): Code {
    Fetch(REG(1), IMM(1)) + Fetch(REG(1), IMM(2)) + Fetch(REG(1), IMM(3)) + [NEXT_R1]
  }

  function ProbeCode(): Code {
    [ZERO_R1] + (ProbeBody() + [INSN(OP_JNE, REG(1), IMM(MDIO_DEV_MAX), IMM(-8))])
  }

  function Row(phy: nat): seq<Place>
    requires phy < MDIO_DEV_MAX
  {
    [(C22(phy), 1), (C22(phy), 2), (C22(phy), 3)]
  }

  function Rows(phy: nat): seq<Place>
    requires phy <= MDIO_DEV_MAX
    decreases MDIO_DEV_MAX - phy
  {
    if phy == MDIO_DEV_MAX then [] else Row(phy) + Rows(phy + 1)
  }

  /** Word 3 * phy + j of the output is register j + 1 of address phy, which is the
      stride the callback walks with. */
  lemma {:induction false} RowsIndex(phy: nat, i: nat, j: nat)
    requires phy <= i < MDIO_DEV_MAX && j < 3
    ensures |Rows(phy)| == 3 * (MDIO_DEV_MAX - phy)
    ensures Rows(phy)[3 * (i - phy) + j] == (C22(i), j + 1)
    decreases MDIO_DEV_MAX - phy
  {
    if phy + 1 < MDIO_DEV_MAX {
      RowsIndex(phy + 1, if i > phy then i else i + 1, j);
    }
  }

  lemma CountsR1<S>(bus: Bus<S>, c: Core<S>)
    requires c.regs[1] < 0xffff
    ensures Exec(ZERO_R1, c, bus) == Go(SetReg(c, 1, 0), 0)
    ensures Exec(NEXT_R1, c, bus) == Go(SetReg(c, 1, c.regs[1] + 1), 0)
  {
  }

  lemma ProbeBodyMeaning<T>(dev: Device<T>, c: Core<T>) returns (d: Core<T>)
    requires c.regs[1] < MDIO_DEV_MAX
    ensures Leads(ProbeBody(), DirectBus(dev), c, d) && Closed(ProbeBody()) && |ProbeBody()| == 7
    ensures var (t, vals) := LoadAll(dev, c.dev, Row(c.regs[1]));
            d.dev == t && d.out == c.out + vals && d.regs[1] == c.regs[1] + 1
  {
    hide Leads, Closed, Exec, LoadAll, Fetch, ProbeBody;
    var phy := c.regs[1];
    FetchSizes();
    FetchPlaces(phy, c.regs);
    LeadsNothing(DirectBus(dev), c);
    NothingLoaded(dev, c);
    var e1 := EmitsMore([], dev, [], REG(1), IMM(1), (C22(phy), 1), c, c);
    FetchPlaces(phy, e1.regs);
    var f1 := [] + Fetch(REG(1), IMM(1));
    var e2 := EmitsMore(f1, dev, [] + [(C22(phy), 1)], REG(1), IMM(2), (C22(phy), 2), c, e1);
    FetchPlaces(phy, e2.regs);
    var f2 := f1 + Fetch(REG(1), IMM(2));
    var e3 := EmitsMore(f2, dev, [] + [(C22(phy), 1)] + [(C22(phy), 2)], REG(1), IMM(3), (C22(phy), 3), c, e2);
    var f3 := f2 + Fetch(REG(1), IMM(3));
    assert [] + [(C22(phy), 1)] + [(C22(phy), 2)] + [(C22(phy), 3)] == Row(phy);
    CountsR1(DirectBus(dev), e3);
    d := SetReg(e3, 1, e3.regs[1] + 1);
    LeadsThen(f3, NEXT_R1, DirectBus(dev), c, e3, d);
    ProbeBodyShape();
    assert f3 + [NEXT_R1] == ProbeBody();
  }

  lemma ProbeBodyShape()
    ensures ProbeBody() == Fetch(REG(1), IMM(1)) + Fetch(REG(1), IMM(2)) + Fetch(REG(1), IMM(3)) + [NEXT_R1]
    ensures !IsJump(NEXT_R1)
  {
  }

  lemma FetchSizes()
    ensures forall a, b :: |Fetch(a, b)| == 2
  {
  }

  lemma NothingLoaded<T>(dev: Device<T>, c: Core<T>)
    requires Leads([], DirectBus(dev), c, c)
    ensures Emits([], dev, [], c, c)
  {
    assert c.out + [] == c.out;
  }

  lemma FetchPlaces(phy: u16, regs: Regs)
    requires regs[1] == phy < MDIO_DEV_MAX
    ensures forall r: u16 {:trigger IMM(r)} :: PlaceOf(REG(1), IMM(r), regs) == Some((C22(phy), r))
  {
  }

  lemma {:induction false} ProbeLoop<T>(dev: Device<T>, c: Core<T>) returns (d: Core<T>)
    requires c.regs[1] < MDIO_DEV_MAX
    ensures Leads(ProbeBody() + [INSN(OP_JNE, REG(1), IMM(MDIO_DEV_MAX), IMM(-8))], DirectBus(dev), c, d)
    ensures var (t, vals) := LoadAll(dev, c.dev, Rows(c.regs[1]));
            d.dev == t && d.out == c.out + vals
    decreases MDIO_DEV_MAX - c.regs[1]
  {
    hide Leads, Closed, Exec, ProbeBody, LoadAll, Row;
    var bus, again := DirectBus(dev), INSN(OP_JNE, REG(1), IMM(MDIO_DEV_MAX), IMM(-8));
    var e := ProbeBodyMeaning(dev, c);
    ProbeAgain(e, bus);
    var phy := c.regs[1];
    LoadAllConcat(dev, c.dev, Row(phy), Rows(phy + 1));
    if phy + 1 == MDIO_DEV_MAX {
      d := e;
      LoopExit(ProbeBody(), again, bus, c, d);
      EmptyLoad(dev, e.dev);
      assert e.out + [] == e.out;
    } else {
      d := ProbeLoop(dev, e);
      LoopAgain(ProbeBody(), again, bus, c, e, d);
      assert c.out + (LoadAll(dev, c.dev, Row(phy)).1 + LoadAll(dev, e.dev, Rows(phy + 1)).1) == d.out;
    }
  }

  lemma EmptyLoad<T>(dev: Device<T>, t: T)
    ensures LoadAll(dev, t, []) == (t, [])
  {
  }

  lemma ProbeAgain<S>(c: Core<S>, bus: Bus<S>)
    ensures var j := INSN(OP_JNE, REG(1), IMM(MDIO_DEV_MAX), IMM(-8));
            Exec(j, c, bus) == Go(c, if c.regs[1] == MDIO_DEV_MAX then 0 else -8)
            && (|ProbeBody()| == 7 ==> j.arg2 == Back(ProbeBody()))
  {
  }

  lemma ProbeRun<T>(dev: Device<T>, c: Core<T>) returns (d: Core<T>)
    ensures Leads(ProbeCode(), DirectBus(dev), c, d)
    ensures var (t, vals) := LoadAll(dev, c.dev, Rows(0));
            d.dev == t && d.out == c.out + vals && |vals| == 3 * MDIO_DEV_MAX
  {
    hide Leads, Closed, Exec, ProbeBody, LoadAll, Rows;
    var z := SetReg(c, 1, 0);
    ZeroR1(DirectBus(dev), c);
    LeadsOne(ZERO_R1, DirectBus(dev), c, z);
    StraightLine([ZERO_R1]);
    d := ProbeLoop(dev, z);
    var e := ProbeBodyMeaning(dev, z);
    ProbeAgain(e, DirectBus(dev));
    var again := INSN(OP_JNE, REG(1), IMM(MDIO_DEV_MAX), IMM(-8));
    ClosedLoop(ProbeBody(), again);
    LeadsSeq([ZERO_R1], ProbeBody() + [again], DirectBus(dev), c, z, d);
    RowsIndex(0, 0, 0);
  }

  lemma RowsPlace(i: nat)
    requires i < 96
    ensures |Rows(0)| == 96 && Rows(0)[i] == (C22(i / 3), i % 3 + 1)
  {
    hide Rows;
    RowsIndex(0, i / 3, i % 3);
  }

  /** `mdio BUS`: the program ends, having emitted exactly registers 1, 2 and 3 of
      the addresses 0 to 31 in that order, 96 words whatever the devices answer. */
  lemma ProbeMeaning<T>(dev: Device<T>, c: Core<T>) returns (d: Core<T>, places: seq<Place>)
    ensures |places| == 96 && forall i | 0 <= i < 96 :: places[i] == (C22(i / 3), i % 3 + 1)
    ensures Leads(ProbeCode(), DirectBus(dev), c, d)
    ensures var (t, vals) := LoadAll(dev, c.dev, places);
            d.dev == t && d.out == c.out + vals && |vals| == 96
  {
    hide Leads, ProbeCode, LoadAll, Rows;
    d := ProbeRun(dev, c);
    places := Rows(0);
    RowsPlace(0);
    forall i | 0 <= i < 96 ensures places[i] == (C22(i / 3), i % 3 + 1) {
      RowsPlace(i);
    }
  }

  lemma ZeroR1<S>(bus: Bus<S>, c: Core<S>)
    ensures Exec(ZERO_R1, c, bus) == Go(SetReg(c, 1, 0), 0) && !IsJump(ZERO_R1)
  {
  }

  // ---- src/mdio/phy.c: the MMD status --------------------------------------

  const MMD_STATUS_REGS := 16

  function MmdStatusBody(id: u16): Code { Fetch(IMM(id), REG(1)) + [NEXT_R1] }

  const MMD_AGAIN: Insn := INSN(OP_JNE, REG(1), IMM(MMD_STATUS_REGS), IMM(-4))

  function MmdStatusCode(id: u16): Code { [ZERO_R1] + (MmdStatusBody(id) + [MMD_AGAIN]) }

  /** Registers from `reg` to 15 of one device. */
  function Registers(id: u16, reg: nat): seq<Place>
    requires reg <= MMD_STATUS_REGS
    decreases MMD_STATUS_REGS - reg
  {
    if reg == MMD_STATUS_REGS then [] else [(AddrOf(id), reg)] + Registers(id, reg + 1)
  }

  lemma {:induction false} RegistersIndex(id: u16, reg: nat, i: nat)
    requires reg <= i < MMD_STATUS_REGS
    ensures |Registers(id, reg)| == MMD_STATUS_REGS - reg && Registers(id, reg)[i - reg] == (AddrOf(id), i)
    decreases MMD_STATUS_REGS - reg
  {
    if reg + 1 < MMD_STATUS_REGS {
      RegistersIndex(id, reg + 1, if i > reg then i else i + 1);
    }
  }

  lemma MmdAgain<S>(id: u16, c: Core<S>, bus: Bus<S>)
    ensures Exec(MMD_AGAIN, c, bus) == Go(c, if c.regs[1] == MMD_STATUS_REGS then 0 else -4)
    ensures |MmdStatusBody(id)| == 3 && MMD_AGAIN.arg2 == Back(MmdStatusBody(id)) && !IsJump(NEXT_R1)
  {
  }

  lemma MmdBodyMeaning<T>(id: u16, dev: Device<T>, c: Core<T>) returns (d: Core<T>)
    requires c.regs[1] < MMD_STATUS_REGS
    ensures Leads(MmdStatusBody(id), DirectBus(dev), c, d) && Closed(MmdStatusBody(id))
    ensures var l := dev.load(c.dev, AddrOf(id), c.regs[1]);
            d.dev == l.next && d.out == c.out + [l.val] && d.regs[1] == c.regs[1] + 1
  {
    hide Leads, Closed, Exec, Fetch;
    FetchSizes();
    assert PlaceOf(IMM(id), REG(1), c.regs) == Some((AddrOf(id), c.regs[1]));
    var e := FetchMeaning(dev, IMM(id), REG(1), c);
    CountsR1(DirectBus(dev), e);
    d := SetReg(e, 1, e.regs[1] + 1);
    MmdAgain(id, c, DirectBus(dev));
    LeadsThen(Fetch(IMM(id), REG(1)), NEXT_R1, DirectBus(dev), c, e, d);
  }

  /** The registers from `reg` on: from `c` at the start of the loop to `d` after it. */
  ghost predicate MmdDone<T>(id: u16, dev: Device<T>, reg: nat, c: Core<T>, d: Core<T>)
    requires reg <= MMD_STATUS_REGS
  {
    var (t, vals) := LoadAll(dev, c.dev, Registers(id, reg));
    Leads(MmdStatusBody(id) + [MMD_AGAIN], DirectBus(dev), c, d) && d.dev == t && d.out == c.out + vals
  }

  /** One pass over a register. */
  ghost predicate MmdPass<T>(id: u16, dev: Device<T>, reg: u16, c: Core<T>, e: Core<T>) {
    var l := dev.load(c.dev, AddrOf(id), reg);
    Leads(MmdStatusBody(id), DirectBus(dev), c, e)
    && e.dev == l.next && e.out == c.out + [l.val] && e.regs[1] == reg + 1
  }

  lemma FirstLoad<T>(dev: Device<T>, t: T, p: Place, rest: seq<Place>)
    ensures var l := dev.load(t, p.0, p.1);
            var (t', vals) := LoadAll(dev, l.next, rest);
            LoadAll(dev, t, [p] + rest) == (t', [l.val] + vals)
  {
    assert ([p] + rest)[1..] == rest;
  }

  lemma MmdLast<T>(id: u16, dev: Device<T>, reg: u16, c: Core<T>, e: Core<T>)
    requires Closed(MmdStatusBody(id)) && reg + 1 == MMD_STATUS_REGS && MmdPass(id, dev, reg, c, e)
    ensures MmdDone(id, dev, reg, c, e)
  {
    hide Leads, Closed, Exec, MmdStatusBody, LoadAll;
    MmdAgain(id, e, DirectBus(dev));
    LoopExit(MmdStatusBody(id), MMD_AGAIN, DirectBus(dev), c, e);
    var first := dev.load(c.dev, AddrOf(id), reg).val;
    assert Registers(id, reg + 1) == [] && [(AddrOf(id), reg)] + [] == [(AddrOf(id), reg)];
    FirstLoad(dev, c.dev, (AddrOf(id), reg), []);
    EmptyLoad(dev, e.dev);
    assert [first] + [] == [first];
  }

  lemma MmdMore<T>(id: u16, dev: Device<T>, reg: u16, c: Core<T>, e: Core<T>, d: Core<T>)
    requires Closed(MmdStatusBody(id)) && reg + 1 < MMD_STATUS_REGS
    requires MmdPass(id, dev, reg, c, e) && MmdDone(id, dev, reg + 1, e, d)
    ensures MmdDone(id, dev, reg, c, d)
  {
    hide Leads, Closed, Exec, MmdStatusBody, LoadAll;
    MmdAgain(id, e, DirectBus(dev));
    LoopAgain(MmdStatusBody(id), MMD_AGAIN, DirectBus(dev), c, e, d);
    var places, first := Registers(id, reg + 1), dev.load(c.dev, AddrOf(id), reg).val;
    assert Registers(id, reg) == [(AddrOf(id), reg)] + places;
    hide Registers;
    FirstLoad(dev, c.dev, (AddrOf(id), reg), places);
    var rest := LoadAll(dev, e.dev, places).1;
    assert c.out + ([first] + rest) == c.out + [first] + rest;
  }

  lemma {:induction false} MmdLoop<T>(id: u16, dev: Device<T>, c: Core<T>) returns (d: Core<T>)
    requires c.regs[1] < MMD_STATUS_REGS
    ensures Leads(MmdStatusBody(id) + [MMD_AGAIN], DirectBus(dev), c, d)
    ensures var (t, vals) := LoadAll(dev, c.dev, Registers(id, c.regs[1]));
            d.dev == t && d.out == c.out + vals
    decreases MMD_STATUS_REGS - c.regs[1]
  {
    hide Leads, Closed, MmdStatusBody, LoadAll, Registers;
    var reg := c.regs[1];
    var e := MmdBodyMeaning(id, dev, c);
    if reg + 1 == MMD_STATUS_REGS {
      d := e;
      MmdLast(id, dev, reg, c, d);
    } else {
      d := MmdLoop(id, dev, e);
      MmdMore(id, dev, reg, c, e, d);
    }
  }

  lemma MmdStatusRun<T>(id: u16, dev: Device<T>, c: Core<T>) returns (d: Core<T>)
    ensures Leads(MmdStatusCode(id), DirectBus(dev), c, d)
    ensures var (t, vals) := LoadAll(dev, c.dev, Registers(id, 0));
            d.dev == t && d.out == c.out + vals && |vals| == MMD_STATUS_REGS
  {
    hide Leads, Closed, Exec, MmdStatusBody, LoadAll, Registers;
    var z := SetReg(c, 1, 0);
    ZeroR1(DirectBus(dev), c);
    LeadsOne(ZERO_R1, DirectBus(dev), c, z);
    StraightLine([ZERO_R1]);
    d := MmdLoop(id, dev, z);
    var e := MmdBodyMeaning(id, dev, z);
    MmdAgain(id, z, DirectBus(dev));
    ClosedLoop(MmdStatusBody(id), MMD_AGAIN);
    LeadsSeq([ZERO_R1], MmdStatusBody(id) + [MMD_AGAIN], DirectBus(dev), c, z, d);
    RegistersIndex(id, 0, 0);
  }

  /** `mdio BUS mmd PRTAD:DEVAD`: exactly registers 0 to 15, in order. */
  lemma MmdStatusMeaning<T>(id: u16, dev: Device<T>, c: Core<T>) returns (d: Core<T>, places: seq<Place>)
    ensures |places| == 16 && forall r | 0 <= r < 16 :: places[r] == (AddrOf(id), r)
    ensures Leads(MmdStatusCode(id), DirectBus(dev), c, d)
    ensures var (t, vals) := LoadAll(dev, c.dev, places);
            d.dev == t && d.out == c.out + vals && |vals| == 16
  {
    hide Leads, MmdStatusCode, LoadAll, Registers;
    d := MmdStatusRun(id, dev, c);
    places := Registers(id, 0);
    RegistersIndex(id, 0, 0);
    forall r | 0 <= r < 16 ensures places[r] == (AddrOf(id), r) {
      RegistersIndex(id, 0, r);
    }
  }

  // ---- unrolled status programs --------------------------------------------

  /** READ and EMIT of the listed registers: `phy_exec_status`, `mva_exec_status`. */
  function ListCode(id: u16, regs: seq<u16>): Code {
    if regs == [] then [] else ListCode(id, regs[..|regs| - 1]) + Fetch(IMM(id), IMM(regs[|regs| - 1]))
  }

  function Places(id: u16, regs: seq<u16>): seq<Place> { seq(|regs|, i requires 0 <= i < |regs| => (AddrOf(id), regs[i])) }

  const PHY_STATUS_REGS: seq<u16> := [0, 1, 2, 3, 15]

  function MvaStatusRegs(pageReg: u8): seq<u16> { [0, 1, 2, 3, pageReg] }

  lemma {:induction false} ListMeaning<T>(id: u16, regs: seq<u16>, dev: Device<T>, c: Core<T>) returns (d: Core<T>)
    requires 2 * |regs| < MAX_CODE
    ensures Emits(ListCode(id, regs), dev, Places(id, regs), c, d) && |ListCode(id, regs)| == 2 * |regs|
    decreases |regs|
  {
    hide Leads, Closed, Fetch, LoadAll, Exec;
    if regs == [] {
      d := c;
      LeadsNothing(DirectBus(dev), c);
      NothingLoaded(dev, c);
      assert Places(id, regs) == [];
    } else {
      var init, r := regs[..|regs| - 1], regs[|regs| - 1];
      FetchSizes();
      var e := ListMeaning(id, init, dev, c);
      assert PlaceOf(IMM(id), IMM(r), e.regs) == Some((AddrOf(id), r));
      d := EmitsMore(ListCode(id, init), dev, Places(id, init), IMM(id), IMM(r), (AddrOf(id), r), c, e);
      assert Places(id, regs) == Places(id, init) + [(AddrOf(id), r)];
    }
  }

  /** `phy_exec_status`: registers 0 to 3 and 15. */
  lemma PhyStatusMeaning<T>(id: u16, dev: Device<T>, c: Core<T>) returns (d: Core<T>)
    ensures Leads(ListCode(id, PHY_STATUS_REGS), DirectBus(dev), c, d)
    ensures var a := AddrOf(id);
            var (t, vals) := LoadAll(dev, c.dev, [(a, 0), (a, 1), (a, 2), (a, 3), (a, 15)]);
            d.dev == t && d.out == c.out + vals && |vals| == 5
  {
    hide Leads, ListCode, LoadAll, Closed;
    var a := AddrOf(id);
    d := ListMeaning(id, PHY_STATUS_REGS, dev, c);
    assert Places(id, PHY_STATUS_REGS) == [(a, 0), (a, 1), (a, 2), (a, 3), (a, 15)];
  }

  /** `mva_exec_status`: registers 0 to 3 and the page register. */
  lemma MvaStatusMeaning<T>(id: u16, pageReg: u8, dev: Device<T>, c: Core<T>) returns (d: Core<T>)
    ensures Leads(ListCode(id, MvaStatusRegs(pageReg)), DirectBus(dev), c, d)
    ensures var a := AddrOf(id);
            var (t, vals) := LoadAll(dev, c.dev, [(a, 0), (a, 1), (a, 2), (a, 3), (a, pageReg)]);
            d.dev == t && d.out == c.out + vals && |vals| == 5
  {
    hide Leads, ListCode, LoadAll, Closed;
    var a := AddrOf(id);
    d := ListMeaning(id, MvaStatusRegs(pageReg), dev, c);
    assert Places(id, MvaStatusRegs(pageReg)) == [(a, 0), (a, 1), (a, 2), (a, 3), (a, pageReg)];
  }
}
