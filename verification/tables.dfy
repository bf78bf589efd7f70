/** Table programs of src/mdio/mvls.c: the LAG listing, which has to select entries
    without disturbing the HashTrunk bit, and the FID selection of the ATU flush. */
module Tables {
  import opened Words
  import opened Isa
  import opened Machine
  import opened Fragment
  import opened Program
  import opened Drivers
  import opened Operations
  import opened Bindings
  import opened Devices
  import opened Meaning
  import opened MultiChip

  const G2 := 0x1c
  const TRUNK_MASK: u32 := G2 * 0x1_0000 + 0x07
  const TRUNK_MAP: u32 := G2 * 0x1_0000 + 0x08

  const LAGS := 16
  const MASKS := 8

  // ---- the program ---------------------------------------------------------

  function MapRow(id: u16, i: nat): Code
    requires i < LAGS
  {
    MvlsWriteCode(id, TRUNK_MAP, IMM(i * 0x800)) + MvlsReadCode(id, TRUNK_MAP) + [EMIT0]
  }

  function MaskSelect(id: u16, i: nat): Code
    requires i < MASKS
  {
    MvlsReadCode(id, TRUNK_MASK) + [AndMask(0x800)] + [OrValue(i * 0x1000)] + MvlsWriteCode(id, TRUNK_MASK, REG(0))
  }

  function MaskRow(id: u16, i: nat): Code
    requires i < MASKS
  {
    MaskSelect(id, i) + MvlsReadCode(id, TRUNK_MASK) + [EMIT0]
  }

  function MapRows(id: u16, n: nat): Code
    requires n <= LAGS
  {
    if n == 0 then [] else MapRows(id, n - 1) + MapRow(id, n - 1)
  }

  function MaskRows(id: u16, n: nat): Code
    requires n <= MASKS
  {
    if n == 0 then [] else MaskRows(id, n - 1) + MaskRow(id, n - 1)
  }

  function LagCode(id: u16): Code { MapRows(id, LAGS) + MaskRows(id, MASKS) }

  method PushMapRow(prog: Prog, id: u16, i: nat)
    requires i < LAGS
    modifies prog
    ensures prog.insns == old(prog.insns) + MapRow(id, i)
  {
    hide MvlsReadCode, MvlsWriteCode, INSN, IMM, REG;
    MvlsWrite(prog, id, TRUNK_MAP, IMM(i * 0x800));
    MvlsRead(prog, id, TRUNK_MAP);
    prog.Push(EMIT0);
  }

  method PushMaskRow(prog: Prog, id: u16, i: nat)
    requires i < MASKS
    modifies prog
    ensures prog.insns == old(prog.insns) + MaskRow(id, i)
  {
    hide MvlsReadCode, MvlsWriteCode, INSN, IMM, REG;
    MvlsRead(prog, id, TRUNK_MASK);
    prog.Push(AndMask(0x800));
    prog.Push(OrValue(i * 0x1000));
    MvlsWrite(prog, id, TRUNK_MASK, REG(0));
    assert prog.insns == old(prog.insns) + MaskSelect(id, i);
    MvlsRead(prog, id, TRUNK_MASK);
    prog.Push(EMIT0);
  }

  method LagExec(id: u16) returns (prog: Prog)
    ensures fresh(prog) && prog.insns == LagCode(id)
  {
    hide MapRow, MaskRow;
    prog := new Prog();
    var i := 0;
    while i < LAGS
      invariant 0 <= i <= LAGS && fresh(prog) && prog.insns == MapRows(id, i)
    {
      PushMapRow(prog, id, i);
      i := i + 1;
    }
    i := 0;
    while i < MASKS
      invariant 0 <= i <= MASKS && fresh(prog) && prog.insns == MapRows(id, LAGS) + MaskRows(id, i)
    {
      PushMaskRow(prog, id, i);
      i := i + 1;
    }
  }

  // ---- the trunk tables ----------------------------------------------------

  type PortVec = x: u16 | x < 0x800

  /** `hash` is the HashTrunk bit, which every write of the mask register sets; bit 15
      of a written value stores into the table. */
  datatype Trunks = Trunks(mapSel: nat, maskSel: nat, hash: bool, maps: seq<PortVec>, masks: seq<PortVec>)

  predicate WellSized(t: Trunks) { t.mapSel < LAGS == |t.maps| && t.maskSel < MASKS == |t.masks| }

  function MapWord(t: Trunks, i: nat): u16
    requires WellSized(t) && i < LAGS
  {
    i * 0x800 + t.maps[i]
  }

  function MaskWord(t: Trunks, i: nat): u16
    requires WellSized(t) && i < MASKS
  {
    i * 0x1000 + (if t.hash then 0x800 else 0) + t.masks[i]
  }

  function TrunkLoad(t: Trunks, r: u16): Loaded<Trunks> {
    if !WellSized(t) then Loaded(t, 0)
    else if r == 0x08 then Loaded(t, MapWord(t, t.mapSel))
    else if r == 0x07 then Loaded(t, MaskWord(t, t.maskSel))
    else Loaded(t, 0)
  }

  function TrunkStore(t: Trunks, r: u16, v: u16): Trunks {
    if !WellSized(t) then t
    else if r == 0x08 then
      var i := v / 0x800 % LAGS;
      t.(mapSel := i, maps := if v >= 0x8000 then t.maps[i := v % 0x800] else t.maps)
    else if r == 0x07 then
      var i := v / 0x1000 % MASKS;
      t.(maskSel := i, hash := v / 0x800 % 2 == 1, masks := if v >= 0x8000 then t.masks[i := v % 0x800] else t.masks)
    else t
  }

  function TrunkDevice(): Device<Trunks> {
    Device(
      (t: Trunks, a: Addr, r: u16) => if a == C22(0x1c) then TrunkLoad(t, r) else Loaded(t, NOBODY),
      (t: Trunks, a: Addr, r: u16, v: u16) => if a == C22(0x1c) then TrunkStore(t, r, v) else t)
  }

  lemma TrunkAccess<S(!new)>(b: Binding<S, Trunks>, t: Trunks, r: u16, v: u16)
    requires Serves(b, TrunkDevice()) && r < 0x20
    ensures var reg: u32 := G2 * 0x1_0000 + r as int;
            SwitchReg(reg) && b.load(t, reg) == TrunkLoad(t, r) && b.store(t, reg, v) == TrunkStore(t, r, v)
  {
    var reg: u32 := G2 * 0x1_0000 + r as int;
    assert Upper(reg) == G2 && Lower(reg) == r;
    assert b.load(t, reg) == Inner(TrunkDevice(), t, reg);
    assert b.store(t, reg, v) == InnerStore(TrunkDevice(), t, reg, v);
  }

  /** The tables and the HashTrunk bit are what they were. */
  predicate SameTables(t: Trunks, u: Trunks) {
    WellSized(u) && u.maps == t.maps && u.masks == t.masks && u.hash == t.hash
  }

  ghost predicate Lists<S>(b: Binding<S, Trunks>, f: Code, t: Trunks, words: seq<u16>, c: Core<S>, d: Core<S>) {
    Closed(f) && Leads(f, b.bus, c, d) && b.ok(d.dev) && SameTables(t, b.abs(d.dev)) && d.out == c.out + words
  }

  lemma ListsSeq<S>(b: Binding<S, Trunks>, f: Code, g: Code, t: Trunks, v: seq<u16>, w: seq<u16>,
                    c: Core<S>, d: Core<S>, e: Core<S>)
    requires Lists(b, f, t, v, c, d) && Lists(b, g, t, w, d, e) && |f| + |g| < MAX_CODE
    ensures Lists(b, f + g, t, v + w, c, e)
  {
    hide Closed, Leads;
    LeadsSeq(f, g, b.bus, c, d, e);
    assert c.out + v + w == c.out + (v + w);
  }

  /** A read of the switch and an EMIT. */
  lemma ReadEmit<S(!new)>(b: Binding<S, Trunks>, r: u16, c: Core<S>) returns (d: Core<S>)
    requires Serves(b, TrunkDevice()) && b.ok(c.dev) && r < 0x20 && WellSized(b.abs(c.dev))
    ensures var reg: u32 := G2 * 0x1_0000 + r as int;
            var f := MvlsReadCode(b.drv.id, reg) + [EMIT0];
            |f| <= 7 && Lists(b, f, b.abs(c.dev), [TrunkLoad(b.abs(c.dev), r).val], c, d)
  {
    hide Leads, Closed, Implements, MvlsReadCode, Exec;
    var reg: u32 := G2 * 0x1_0000 + r as int;
    TrunkAccess(b, b.abs(c.dev), r, 0);
    var e := RunRead(b, reg, c);
    d := e.(out := e.out + [e.regs[0]]);
    EmitR0(b.bus, e);
    ReadCodeClosed(b.drv, reg);
    LeadsThen(MvlsReadCode(b.drv.id, reg), EMIT0, b.bus, c, e, d);
  }

  lemma MapRowMeaning<S(!new)>(b: Binding<S, Trunks>, i: nat, c: Core<S>) returns (d: Core<S>)
    requires Serves(b, TrunkDevice()) && b.ok(c.dev) && i < LAGS && WellSized(b.abs(c.dev))
    ensures |MapRow(b.drv.id, i)| <= 13
    ensures Lists(b, MapRow(b.drv.id, i), b.abs(c.dev), [MapWord(b.abs(c.dev), i)], c, d)
  {
    hide Leads, Closed, Implements, MvlsReadCode, MvlsWriteCode, IMM;
    var t, arg := b.abs(c.dev), IMM(i * 0x800);
    TrunkAccess(b, t, 0x08, i * 0x800);
    assert Operand(b.drv, arg) && OperandValue(b.drv, arg, c.regs) == i * 0x800;
    var e := RunWrite(b, TRUNK_MAP, arg, c);
    WriteCodeClosed(b.drv, TRUNK_MAP, arg);
    var write, fetch := MvlsWriteCode(b.drv.id, TRUNK_MAP, arg), MvlsReadCode(b.drv.id, TRUNK_MAP) + [EMIT0];
    assert c.out + [] == c.out;
    assert Lists(b, write, t, [], c, e);
    d := ReadEmit(b, 0x08, e);
    assert b.abs(e.dev).mapSel == i;
    ListsSeq(b, write, fetch, t, [], [MapWord(t, i)], c, e, d);
    assert [] + [MapWord(t, i)] == [MapWord(t, i)];
    assert write + fetch == MapRow(b.drv.id, i);
  }

  /** The value written to select mask `i`: the HashTrunk bit and the entry number. */
  lemma KeepsHash(t: Trunks, i: nat)
    requires WellSized(t) && i < MASKS
    ensures Or16(And16(MaskWord(t, t.maskSel), 0x800), i * 0x1000) == i * 0x1000 + if t.hash then 0x800 else 0
  {
    hide And, Or;
    Pow2Values();
    var h := if t.hash then 0x800 else 0;
    QuotientUnique(MaskWord(t, t.maskSel), 0x800, 2 * t.maskSel + if t.hash then 1 else 0, t.masks[t.maskSel]);
    AndPow2(11, MaskWord(t, t.maskSel));
    OrCommutes(h, i * 0x1000);
    OrDisjoint(12, i, h);
  }

  /** Selecting mask `i` changes the selection only. */
  lemma MaskSelectMeaning<S(!new)>(b: Binding<S, Trunks>, i: nat, c: Core<S>) returns (e: Core<S>)
    requires Serves(b, TrunkDevice()) && b.ok(c.dev) && i < MASKS && WellSized(b.abs(c.dev))
    ensures |MaskSelect(b.drv.id, i)| <= 14 && Lists(b, MaskSelect(b.drv.id, i), b.abs(c.dev), [], c, e)
    ensures b.abs(e.dev) == b.abs(c.dev).(maskSel := i)
  {
    hide Leads, Closed, Implements, MvlsReadCode, MvlsWriteCode, And16, Or16, IMM, REG, INSN, Exec;
    var t := b.abs(c.dev);
    var v: u16 := i * 0x1000 + if t.hash then 0x800 else 0;
    TrunkAccess(b, t, 0x07, v);
    KeepsHash(t, i);
    SelectsMask(t, i);
    hide TrunkLoad, TrunkStore, MaskWord;
    var m := Modify(b, TRUNK_MASK, i * 0x1000, 0x800, c);
    var e' := RunWrite(b, TRUNK_MASK, REG(0), m);
    e := e';
    WriteCodeClosed(b.drv, TRUNK_MASK, REG(0));
    var update := MvlsReadCode(b.drv.id, TRUNK_MASK) + [AndMask(0x800)] + [OrValue(i * 0x1000)];
    LeadsSeq(update, MvlsWriteCode(b.drv.id, TRUNK_MASK, REG(0)), b.bus, c, m, e);
    assert c.out + [] == c.out;
  }

  lemma SelectsMask(t: Trunks, i: nat)
    requires WellSized(t) && i < MASKS
    ensures TrunkLoad(t, 0x07) == Loaded(t, MaskWord(t, t.maskSel))
    ensures TrunkStore(t, 0x07, i * 0x1000 + if t.hash then 0x800 else 0) == t.(maskSel := i)
  {
  }

  lemma MaskRowMeaning<S(!new)>(b: Binding<S, Trunks>, i: nat, c: Core<S>) returns (d: Core<S>)
    requires Serves(b, TrunkDevice()) && b.ok(c.dev) && i < MASKS && WellSized(b.abs(c.dev))
    ensures |MaskRow(b.drv.id, i)| <= 21
    ensures Lists(b, MaskRow(b.drv.id, i), b.abs(c.dev), [MaskWord(b.abs(c.dev), i)], c, d)
  {
    hide Leads, Closed, Implements, MvlsReadCode, MaskSelect, Exec;
    var t := b.abs(c.dev);
    var e := MaskSelectMeaning(b, i, c);
    d := ReadEmit(b, 0x07, e);
    var fetch := MvlsReadCode(b.drv.id, TRUNK_MASK) + [EMIT0];
    ListsSeq(b, MaskSelect(b.drv.id, i), fetch, t, [], [MaskWord(t, i)], c, e, d);
    assert [] + [MaskWord(t, i)] == [MaskWord(t, i)];
    assert MaskSelect(b.drv.id, i) + fetch == MaskRow(b.drv.id, i);
  }

  function MapWords(t: Trunks, n: nat): seq<u16>
    requires WellSized(t) && n <= LAGS
  {
    seq(n, i requires 0 <= i < n => MapWord(t, i))
  }

  function MaskWords(t: Trunks, n: nat): seq<u16>
    requires WellSized(t) && n <= MASKS
  {
    seq(n, i requires 0 <= i < n => MaskWord(t, i))
  }

  lemma NothingListed<S>(b: Binding<S, Trunks>, c: Core<S>)
    requires b.ok(c.dev) && WellSized(b.abs(c.dev))
    ensures Lists(b, [], b.abs(c.dev), [], c, c)
  {
    LeadsNothing(b.bus, c);
    assert c.out + [] == c.out;
  }

  lemma {:induction false} MapRowsMeaning<S(!new)>(b: Binding<S, Trunks>, n: nat, c: Core<S>) returns (d: Core<S>)
    requires Serves(b, TrunkDevice()) && b.ok(c.dev) && n <= LAGS && WellSized(b.abs(c.dev))
    ensures |MapRows(b.drv.id, n)| <= 13 * n
    ensures Lists(b, MapRows(b.drv.id, n), b.abs(c.dev), MapWords(b.abs(c.dev), n), c, d)
    decreases n
  {
    hide Leads, Closed, MapRow, Implements;
    if n == 0 {
      d := c;
      NothingListed(b, c);
      assert MapWords(b.abs(c.dev), 0) == [];
    } else {
      var t := b.abs(c.dev);
      var e := MapRowsMeaning(b, n - 1, c);
      d := MapRowMeaning(b, n - 1, e);
      ListsSeq(b, MapRows(b.drv.id, n - 1), MapRow(b.drv.id, n - 1), t, MapWords(t, n - 1), [MapWord(t, n - 1)], c, e, d);
      assert MapWords(t, n) == MapWords(t, n - 1) + [MapWord(t, n - 1)];
    }
  }

  lemma {:induction false} MaskRowsMeaning<S(!new)>(b: Binding<S, Trunks>, n: nat, c: Core<S>) returns (d: Core<S>)
    requires Serves(b, TrunkDevice()) && b.ok(c.dev) && n <= MASKS && WellSized(b.abs(c.dev))
    ensures |MaskRows(b.drv.id, n)| <= 21 * n
    ensures Lists(b, MaskRows(b.drv.id, n), b.abs(c.dev), MaskWords(b.abs(c.dev), n), c, d)
    decreases n
  {
    hide Leads, Closed, MaskRow, Implements;
    if n == 0 {
      d := c;
      NothingListed(b, c);
      assert MaskWords(b.abs(c.dev), 0) == [];
    } else {
      var t := b.abs(c.dev);
      var e := MaskRowsMeaning(b, n - 1, c);
      d := MaskRowMeaning(b, n - 1, e);
      ListsSeq(b, MaskRows(b.drv.id, n - 1), MaskRow(b.drv.id, n - 1), t, MaskWords(t, n - 1), [MaskWord(t, n - 1)], c, e, d);
      assert MaskWords(t, n) == MaskWords(t, n - 1) + [MaskWord(t, n - 1)];
    }
  }

  /** Sixteen map entries with their index from bit 11 on, then eight masks with their
      index from bit 12 on and the HashTrunk bit at 11. */
  ghost predicate Listing(t: Trunks, words: seq<u16>) {
    |words| == 24 && |t.maps| == 16 && |t.masks| == 8
    && (forall i | 0 <= i < 16 :: words[i] == i * 0x800 + t.maps[i] as int)
    && (forall i | 16 <= i < 24 :: words[i] == (i - 16) * 0x1000 + (if t.hash then 0x800 else 0) + t.masks[i - 16] as int)
  }

  lemma WordsAreListing(t: Trunks)
    requires WellSized(t)
    ensures Listing(t, MapWords(t, LAGS) + MaskWords(t, MASKS))
  {
  }

  /** The LAG listing emits the 16 map entries and then the 8 masks and changes
      neither the tables nor the HashTrunk bit, for any binding that serves the switch. */
  lemma LagMeaning<S(!new)>(b: Binding<S, Trunks>, c: Core<S>) returns (d: Core<S>, words: seq<u16>)
    requires Serves(b, TrunkDevice()) && b.ok(c.dev) && WellSized(b.abs(c.dev))
    ensures Leads(LagCode(b.drv.id), b.bus, c, d) && b.ok(d.dev)
    ensures var t := b.abs(c.dev);
            d.out == c.out + words && Listing(t, words) && SameTables(t, b.abs(d.dev))
  {
    hide Leads, Closed, MapRows, MaskRows, Implements, Listing;
    var t := b.abs(c.dev);
    WordsAreListing(t);
    words := MapWords(t, LAGS) + MaskWords(t, MASKS);
    var e := MapRowsMeaning(b, LAGS, c);
    d := MaskRowsMeaning(b, MASKS, e);
    assert MaskWords(b.abs(e.dev), MASKS) == MaskWords(t, MASKS);
    ListsSeq(b, MapRows(b.drv.id, LAGS), MaskRows(b.drv.id, MASKS), t, MapWords(t, LAGS), MaskWords(t, MASKS), c, e, d);
  }

  /** So the listing is right in both addressing modes: with commands, whatever their
      busy times, and with the switch directly on the bus. */
  lemma LagInBothModes(id: u8, c: Core<Front<Trunks>>, c': Core<Trunks>)
      returns (d: Core<Front<Trunks>>, words: seq<u16>, d': Core<Trunks>, words': seq<u16>)
    requires id != 0 && c.dev.busy == 0 && WellSized(c.dev.inner) && WellSized(c'.dev)
    ensures Leads(LagCode(id), MultiBus(id, TrunkDevice()), c, d) && d.dev.busy == 0
    ensures var t := c.dev.inner;
            d.out == c.out + words && Listing(t, words) && SameTables(t, d.dev.inner)
    ensures Leads(LagCode(0), DirectBus(TrunkDevice()), c', d')
    ensures var t := c'.dev;
            d'.out == c'.out + words' && Listing(t, words') && SameTables(t, d'.dev)
  {
    hide Serves, Leads, LagCode, Listing, TrunkDevice;
    BothModesServe(id, TrunkDevice());
    d, words := LagMeaning(MultiBinding(id, TrunkDevice()), c);
    d', words' := LagMeaning(SingleBinding(TrunkDevice()), c');
  }

  // ---- the FID of an ATU flush ---------------------------------------------

  const ATU_FID: u32 := 0x1b * 0x1_0000 + 0x01

  /** Selecting the FID: the mask is written as 0xf0000, which `IMM` cuts to 16 bits. */
  function SelectFid(id: u16, fid: nat): Code {
    MvlsReadCode(id, ATU_FID) + [AndMask(0xf_0000)] + [OrValue(fid % 0x1000)] + MvlsWriteCode(id, ATU_FID, REG(0))
  }

  /** Nothing of the old register survives, although the mask suggests that its upper
      four bits should. So the stored value is the intended one, (old & 0xf000) | FID,
      exactly if those bits were 0; on a register that stores, that is also what a later
      read shows. */
  lemma FidSelectionDropsUpperBits<S(!new), A(!new)>(b: Binding<S, A>, fid: nat, c: Core<S>) returns (d: Core<S>)
    requires Implements(b) && b.drv.Mvls? && Ready(b, 0x1b_0001, c) && b.writable(0x1b_0001)
    ensures var was := b.load(b.abs(c.dev), 0x1b_0001);
            var intended := was.val / 0x1000 * 0x1000 + fid % 0x1000;
            Leads(SelectFid(b.drv.id, fid), b.bus, c, d) && b.ok(d.dev)
            && b.abs(d.dev) == b.store(was.next, 0x1b_0001, fid % 0x1000)
            && intended == Or16(And16(was.val, 0xf000), fid % 0x1000)
            && (fid % 0x1000 == intended <==> was.val < 0x1000)
            && (Storage(b) ==> (b.load(b.abs(d.dev), 0x1b_0001).val == intended <==> was.val < 0x1000))
  {
    hide Leads, Closed, Implements, MvlsReadCode, MvlsWriteCode, REG, IMM, INSN, And16, Or16;
    ImmCuts();
    var low: u16 := fid % 0x1000;
    var m := Modify(b, ATU_FID, low, 0, c);
    OnlyValue(b.load(b.abs(c.dev), ATU_FID).val, low);
    UpperNibble(b.load(b.abs(c.dev), ATU_FID).val, low);
    d := RunWrite(b, ATU_FID, REG(0), m);
    WriteCodeClosed(b.drv, ATU_FID, REG(0));
    LeadsSeq(MvlsReadCode(b.drv.id, ATU_FID) + [AndMask(0)] + [OrValue(fid % 0x1000)],
             MvlsWriteCode(b.drv.id, ATU_FID, REG(0)), b.bus, c, m, d);
  }

  lemma OnlyValue(old16: u16, v: u16)
    ensures Or16(And16(old16, 0), v) == v
  {
    OrZero(v);
  }

  lemma ImmCuts()
    ensures IMM(0xf_0000) == IMM(0)
  {
  }
}
