/** The dump of a paged PHY, which switches page once, against one paged read per
    register. */
module PagedDumps {
  import opened Words
  import opened Isa
  import opened Machine
  import opened Fragment
  import opened Drivers
  import opened Operations
  import opened Bindings
  import opened Devices
  import opened Meaning
  import opened PagedPhy

  const PHY_REGS := 32

  /** What register `reg` reads as while `page` is selected. */
  function OnPage(k: Config, banks: map<(u16, u16), u16>, page: u16, reg: u16): u16 {
    if reg == k.pageReg then page else Lookup(banks, (k.bank(page), reg))
  }

  function SweepValues(k: Config, banks: map<(u16, u16), u16>, page: u16, first: nat, count: nat): seq<u16>
    requires first + count <= PHY_REGS
  {
    if count == 0 then []
    else SweepValues(k, banks, page, first, count - 1) + [OnPage(k, banks, page, first + count - 1)]
  }

  /** The accesses of a sweep; reading the page register itself leaves no trace. */
  function SweepLog(k: Config, page: u16, first: nat, count: nat): seq<Touch>
    requires first + count <= PHY_REGS
  {
    if count == 0 then []
    else
      var reg: u16 := first + count - 1;
      SweepLog(k, page, first, count - 1) + (if reg == k.pageReg then [] else [Fetch(page, reg)])
  }

  lemma SweepClosed(id: u16, first: nat, count: nat)
    ensures Closed(SweepCode(id, first, count)) && |SweepCode(id, first, count)| == 2 * count
  {
    if count > 0 {
      SweepClosed(id, first, count - 1);
      var read := INSN(OP_READ, IMM(id), IMM(first + count - 1), REG(0));
      StraightLine([read] + [EMIT0]);
      ClosedConcat(SweepCode(id, first, count - 1), [read] + [EMIT0]);
      assert SweepCode(id, first, count) == SweepCode(id, first, count - 1) + ([read] + [EMIT0]);
    }
  }

  lemma {:induction false} SweepMeaning(k: Config, first: nat, count: nat, c: Core<Phy>) returns (d: Core<Phy>)
    requires first + count <= PHY_REGS
    ensures Leads(SweepCode(k.id, first, count), PagedBus(k), c, d)
    ensures ViewOf(d.dev) == ViewOf(c.dev) && d.regs[1] == c.regs[1]
    ensures d.out == c.out + SweepValues(k, c.dev.banks, c.dev.page, first, count)
    ensures d.dev.log == c.dev.log + SweepLog(k, c.dev.page, first, count)
    decreases count
  {
    hide Leads, Exec, Closed, INSN, IMM, REG, PagedBus;
    if count == 0 {
      d := c;
      LeadsNothing(PagedBus(k), c);
    } else {
      var e := SweepMeaning(k, first, count - 1, c);
      var reg: u16 := first + count - 1;
      var l := PhyLoad(k, e.dev, reg);
      var r := Core(e.regs[0 := l.val], l.next, e.out);
      d := r.(out := r.out + [l.val]);
      BusReads(k, e.dev, reg);
      DoRead(k.id, reg, 0, PagedBus(k), e, l.val, l.next);
      EmitR0(PagedBus(k), r);
      SweepClosed(k.id, first, count - 1);
      var f, read := SweepCode(k.id, first, count - 1), INSN(OP_READ, IMM(k.id), IMM(reg), REG(0));
      LeadsThen(f, read, PagedBus(k), c, e, r);
      LeadsThen(f + [read], EMIT0, PagedBus(k), c, r, d);
    }
  }

  /** The dump driver function: all 16 bits of the page register are restored, and
      everything between the switch and the restore happens on the requested page. */
  lemma DumpRun(k: Config, start: u32, end: u32, c: Core<Phy>) returns (d: Core<Phy>)
    requires k.pageReg < 0x100 && end < PHY_REGS
    ensures Leads(PagedDumpCode(k.id, k.pageReg, start, end), PagedBus(k), c, d)
    ensures ViewOf(d.dev) == ViewOf(c.dev)
    ensures var first := PageReg(start);
            d.out == c.out + SweepValues(k, c.dev.banks, PageOf(start), first, RangeSize(first, end))
    ensures var sweep := SweepLog(k, PageOf(start), PageReg(start), RangeSize(PageReg(start), end));
            d.dev.log == c.dev.log + if c.dev.page == PageOf(start) then sweep
                                     else [Select(PageOf(start))] + sweep + [Select(c.dev.page)]
  {
    hide Leads, PagedEnterCode, PagedLeaveCode, SweepCode, SweepValues, SweepLog;
    var page, first := PageOf(start), PageReg(start);
    var count := RangeSize(first, end);
    var e := EnterMeaning(k, page, c);
    var f := SweepMeaning(k, first, count, e);
    d := LeaveMeaning(k, page, f);
    PagedClosed(k.id, k.pageReg, page);
    SweepClosed(k.id, first, count);
    var enter, sweep := PagedEnterCode(k.id, k.pageReg, page), SweepCode(k.id, first, count);
    LeadsSeq(enter, sweep, PagedBus(k), c, e, f);
    LeadsSeq(enter + sweep, PagedLeaveCode(k.id, k.pageReg, page), PagedBus(k), c, f, d);
  }

  lemma PagedNumber(page: u8, reg: nat)
    requires reg < PHY_REGS
    ensures PageOf(page * 0x1_0000 + reg) == page && PageReg(page * 0x1_0000 + reg) == reg
  {
  }

  lemma {:induction false} LoadsAreSweep(k: Config, v: View, page: u8, first: nat, count: nat)
    requires k.pageReg < 0x100 && first + count <= PHY_REGS
    ensures LoadRange(PagedBinding(k), v, page * 0x1_0000 + first, count)
            == (v, SweepValues(k, v.banks, page, first, count))
    decreases count
  {
    if count > 0 {
      LoadsAreSweep(k, v, page, first, count - 1);
      var reg: u32 := page * 0x1_0000 + first + count - 1;
      PagedNumber(page, first + count - 1);
      assert PagedBinding(k).load(v, reg) == PagedLoad(k, v, reg);
    }
  }

  /** The dump driver function does what the generic unrolled dump would do with
      paged reads: the same words, and the device in the same state, page register
      included, for every page, range and initial content of the page register. */
  lemma DumpRefinesUnrolled(k: Config, start: u32, end: u32, c: Core<Phy>) returns (d: Core<Phy>, e: Core<Phy>)
    requires k.pageReg < 0x100 && end < PHY_REGS
    ensures var first := PageReg(start);
            var whole := UnrolledDump(Paged(k.id, k.pageReg), PageOf(start) * 0x1_0000 + first, RangeSize(first, end));
            Leads(DumpCode(Paged(k.id, k.pageReg), start, end), PagedBus(k), c, d) && Leads(whole, PagedBus(k), c, e)
    ensures d.out == e.out && |d.out| == |c.out| + RangeSize(PageReg(start), end)
    ensures ViewOf(d.dev) == ViewOf(e.dev) == ViewOf(c.dev)
  {
    hide Leads, PagedDumpCode, UnrolledDump, LoadRange, SweepValues, Implements;
    var first, count := PageReg(start), RangeSize(PageReg(start), end);
    d := DumpRun(k, start, end, c);
    PagedImplements(k);
    UnrolledClosed(Paged(k.id, k.pageReg), PageOf(start) * 0x1_0000 + first, count);
    e := DumpMeaning(PagedBinding(k), PageOf(start) * 0x1_0000 + first, count, c);
    LoadsAreSweep(k, ViewOf(c.dev), PageOf(start), first, count);
  }

  lemma {:induction false} SweepIndex(k: Config, banks: map<(u16, u16), u16>, page: u16, first: nat, count: nat, i: nat)
    requires first + count <= PHY_REGS && i < count
    ensures |SweepValues(k, banks, page, first, count)| == count
    ensures SweepValues(k, banks, page, first, count)[i] == OnPage(k, banks, page, first + i)
    decreases count
  {
    if count > 1 {
      SweepIndex(k, banks, page, first, count - 1, if i < count - 1 then i else 0);
    }
  }

  /** `dump PAGE:FIRST-LAST`: one word per register, word i being register FIRST + i of
      the page, and the page register ends as it began. */
  lemma DumpWords(k: Config, page: u8, first: nat, last: nat, c: Core<Phy>) returns (d: Core<Phy>, words: seq<u16>)
    requires k.pageReg < 0x100 && first <= last < 32
    ensures Leads(DumpCode(Paged(k.id, k.pageReg), page * 0x1_0000 + first, last), PagedBus(k), c, d)
    ensures ViewOf(d.dev) == ViewOf(c.dev) && d.out == c.out + words && |words| == last - first + 1
    ensures forall i | 0 <= i <= last - first ::
              words[i] == if first + i == k.pageReg then page as u16
                          else Lookup(c.dev.banks, (k.bank(page), (first + i) as u16))
  {
    hide Leads, PagedDumpCode, SweepValues;
    var start: u32 := page * 0x1_0000 + first;
    PagedNumber(page, first);
    d := DumpRun(k, start, last, c);
    var count := RangeSize(first, last);
    words := SweepValues(k, c.dev.banks, page, first, count);
    SweepIndex(k, c.dev.banks, page, first, count, 0);
    forall i | 0 <= i <= last - first
      ensures words[i] == if first + i == k.pageReg then page as u16
                          else Lookup(c.dev.banks, (k.bank(page), (first + i) as u16))
    {
      SweepIndex(k, c.dev.banks, page, first, count, i);
    }
  }
}
