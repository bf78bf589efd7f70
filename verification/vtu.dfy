/** VLAN and spanning tree entries: `__dev_vtu_parse` and `__dev_stu_parse` of
    src/mvls/mvls.c, which unpack two bits per port from three data registers. */
module Vtu {
  import opened Words

  const MAX_PORTS := 11

  /** `bits(reg, bit, n)`: (reg >> bit) & ((1 << n) - 1). */
  function Bits(reg: nat, bit: nat, n: nat): nat { reg / Pow2(bit) % Pow2(n) }

  datatype Entry = Entry(fid: u16, sid: u16, vid: u16, data: seq<u16>)

  /** The two register layouts: 2 or 4 bits per port. */
  predicate Layout(mbits: nat) { mbits == 2 || mbits == 4 }

  function WordOf(port: nat, mbits: nat): nat
    requires Layout(mbits)
  {
    port / (16 / mbits)
  }

  /** `(i * mbits + offs) & 0xf`. */
  function ShiftOf(port: nat, mbits: nat, offs: nat): nat { (port * mbits + offs) % 16 }

  /** The STU shares the registers of the 4-bit layout with the VTU. */
  function StuOffset(mbits: nat): nat { if mbits == 4 then 2 else 0 }

  function Field(data: seq<u16>, port: nat, mbits: nat, offs: nat): (v: nat)
    requires Layout(mbits) && |data| == 3 && port < MAX_PORTS
    ensures v < 4
  {
    Pow2Small();
    Bits(data[WordOf(port, mbits)], ShiftOf(port, mbits, offs), 2)
  }

  lemma Pow2Small()
    ensures Pow2(0) == 1 && Pow2(2) == 4 && Pow2(4) == 16 && Pow2(6) == 64 && Pow2(8) == 0x100
    ensures Pow2(10) == 0x400 && Pow2(12) == 0x1000 && Pow2(14) == 0x4000
  {
    assert Pow2(4) == 16;
    assert Pow2(8) == 0x100;
    assert Pow2(12) == 0x1000;
  }

  /** `qpri.set` and `fpri.set` say whether a priority overrides the port's. */
  datatype VtuEntry = VtuEntry(vid: nat, fid: nat, sid: nat, member: seq<nat>, policy: bool, qpriSet: bool, fpriSet: bool)

  const ENODATA := 61

  datatype Result<+T> = Ok(value: T) | Err(errno: int)

  /** Where a field is, in numbers: eight ports to a word in the 2-bit layout, four in
      the 4-bit one. */
  lemma FieldIs(data: seq<u16>, p: nat, mbits: nat, offs: nat)
    requires Layout(mbits) && |data| == 3 && p < 11 && (offs == 0 || (mbits == 4 && offs == 2))
    ensures Field(data, p, mbits, offs)
            == if mbits == 2 then data[p / 8] / Pow2(2 * (p % 8)) % 4 else data[p / 4] / Pow2(4 * (p % 4) + offs) % 4
  {
    Pow2Small();
    hide Pow2;
    Positions(p, offs);
  }

  lemma Positions(p: nat, offs: nat)
    requires p < 11 && offs <= 2
    ensures WordOf(p, 2) == p / 8 && ShiftOf(p, 2, 0) == 2 * (p % 8)
    ensures WordOf(p, 4) == p / 4 && ShiftOf(p, 4, offs) == 4 * (p % 4) + offs
  {
    assert 16 / 2 == 8 && 16 / 4 == 4;
    var w, r := p / 4, p % 4;
    assert p * 4 + offs == 16 * w + (4 * r + offs);
    var w', r' := p / 8, p % 8;
    assert p * 2 == 16 * w' + 2 * r';
  }

  lemma BitsAre(reg: nat)
    ensures Bits(reg, 12, 1) == reg / 0x1000 % 2 && Bits(reg, 0, 12) == reg % 0x1000 && Bits(reg, 0, 6) == reg % 64
  {
    Pow2Small();
    Pow2Values();
  }

  /** `__dev_vtu_parse`. */
  method VtuParse(k: Entry, mbits: nat) returns (e: Result<VtuEntry>)
    requires Layout(mbits) && |k.data| == 3
    ensures e == Err(61) <==> k.vid / 0x1000 % 2 == 0
    ensures e.Err? ==> e == Err(61)
    ensures e.Ok? ==> e.value.vid == k.vid % 0x1000 && e.value.fid == k.fid % 0x1000 && e.value.sid == k.sid % 64
    ensures e.Ok? ==> e.value.policy == (k.fid / 0x1000 % 2 == 1) && !e.value.qpriSet && !e.value.fpriSet
    ensures e.Ok? ==> |e.value.member| == 11
                      && forall p | 0 <= p < 11 ::
                           e.value.member[p] == if mbits == 2 then k.data[p / 8] / Pow2(2 * (p % 8)) % 4
                                                else k.data[p / 4] / Pow2(4 * (p % 4)) % 4
  {
    BitsAre(k.vid);
    BitsAre(k.fid);
    BitsAre(k.sid);
    hide Bits, Pow2, Field;
    if Bits(k.vid, 12, 1) == 0 {
      return Err(ENODATA);
    }
    var member: seq<nat> := [];
    var i := 0;
    while i < MAX_PORTS
      invariant 0 <= i <= MAX_PORTS && |member| == i
      invariant forall p | 0 <= p < i :: member[p] == Field(k.data, p, mbits, 0)
    {
      member := member + [Field(k.data, i, mbits, 0)];
      i := i + 1;
    }
    forall p | 0 <= p < 11
      ensures member[p] == if mbits == 2 then k.data[p / 8] / Pow2(2 * (p % 8)) % 4
                           else k.data[p / 4] / Pow2(4 * (p % 4)) % 4
    {
      FieldIs(k.data, p, mbits, 0);
    }
    e := Ok(VtuEntry(Bits(k.vid, 0, 12), Bits(k.fid, 0, 12), Bits(k.sid, 0, 6), member, Bits(k.fid, 12, 1) == 1, false, false));
  }

  /** `__dev_stu_parse`: the sid and the states, which in the 4-bit layout are two bits
      above the memberships. */
  method StuParse(k: Entry, mbits: nat) returns (e: Result<(nat, seq<nat>)>)
    requires Layout(mbits) && |k.data| == 3
    ensures e == Err(61) <==> k.vid / 0x1000 % 2 == 0
    ensures e.Err? ==> e == Err(61)
    ensures e.Ok? ==> e.value.0 == k.sid % 64 && |e.value.1| == 11
                      && forall p | 0 <= p < 11 ::
                           e.value.1[p] == if mbits == 2 then k.data[p / 8] / Pow2(2 * (p % 8)) % 4
                                           else k.data[p / 4] / Pow2(4 * (p % 4) + 2) % 4
  {
    BitsAre(k.vid);
    BitsAre(k.sid);
    hide Bits, Pow2, Field;
    var offs := StuOffset(mbits);
    if Bits(k.vid, 12, 1) == 0 {
      return Err(ENODATA);
    }
    var state: seq<nat> := [];
    var i := 0;
    while i < MAX_PORTS
      invariant 0 <= i <= MAX_PORTS && |state| == i
      invariant forall p | 0 <= p < i :: state[p] == Field(k.data, p, mbits, offs)
    {
      state := state + [Field(k.data, i, mbits, offs)];
      i := i + 1;
    }
    forall p | 0 <= p < 11
      ensures state[p] == if mbits == 2 then k.data[p / 8] / Pow2(2 * (p % 8)) % 4
                          else k.data[p / 4] / Pow2(4 * (p % 4) + 2) % 4
    {
      FieldIs(k.data, p, mbits, offs);
    }
    e := Ok((Bits(k.sid, 0, 6), state));
  }

  // ---- packing -------------------------------------------------------------

  /** A register as a row of two-bit digits. */
  function Digit(reg: nat, k: nat): nat { if k == 0 then reg % 4 else Digit(reg / 4, k - 1) }

  function SetDigit(reg: nat, k: nat, v: nat): nat {
    if k == 0 then reg / 4 * 4 + v else SetDigit(reg / 4, k - 1, v) * 4 + reg % 4
  }

  lemma {:induction false} DigitIsBits(reg: nat, k: nat)
    ensures Bits(reg, 2 * k, 2) == Digit(reg, k)
    decreases k
  {
    Pow2Small();
    if k > 0 {
      var p := Pow2(2 * (k - 1));
      assert Pow2(2 * k) == 2 * (2 * p);
      HalfDiv(reg, 2 * p);
      HalfDiv(reg / 2, p);
      DigitIsBits(reg / 4, k - 1);
    }
  }

  lemma {:induction false} SetDigitGet(reg: nat, k: nat, v: nat, j: nat)
    requires v < 4
    ensures Digit(SetDigit(reg, k, v), j) == if j == k then v else Digit(reg, j)
    decreases k
  {
    if k > 0 {
      assert SetDigit(reg, k, v) / 4 == SetDigit(reg / 4, k - 1, v) && SetDigit(reg, k, v) % 4 == reg % 4;
      if j > 0 {
        SetDigitGet(reg / 4, k - 1, v, j - 1);
      }
    }
  }

  lemma QuadPow(n: nat)
    requires n > 0
    ensures Pow2(2 * n) == 4 * Pow2(2 * (n - 1))
  {
    hide Pow2;
    var k: nat := 2 * n;
    FourTimes(k);
    assert 2 * (n - 1) == k - 2;
  }

  lemma FourTimes(k: nat)
    requires k >= 2
    ensures Pow2(k) == 4 * Pow2(k - 2)
  {
    assert Pow2(k) == 2 * Pow2(k - 1);
  }

  lemma {:induction false} SetDigitFits(reg: nat, k: nat, v: nat, n: nat)
    requires v < 4 && k < n && reg < Pow2(2 * n)
    ensures SetDigit(reg, k, v) < Pow2(2 * n)
    decreases k
  {
    hide Pow2;
    QuadPow(n);
    var m := Pow2(2 * (n - 1));
    assert reg / 4 < m;
    if k > 0 {
      SetDigitFits(reg / 4, k - 1, v, n - 1);
    }
  }

  /** A register with the two bits at `shift` replaced. */
  function SetBits(reg: u16, shift: nat, v: nat): (r: u16)
    requires v < 4 && shift % 2 == 0 && shift <= 14
  {
    Pow2Values();
    SetDigitFits(reg, shift / 2, v, 8);
    SetDigit(reg, shift / 2, v)
  }

  lemma SetBitsGet(reg: u16, shift: nat, v: nat, s: nat)
    requires v < 4 && shift % 2 == 0 && shift <= 14 && s % 2 == 0
    ensures Bits(SetBits(reg, shift, v), s, 2) == if s == shift then v else Bits(reg, s, 2)
  {
    hide Bits, SetDigit;
    SetDigitGet(reg, shift / 2, v, s / 2);
    DigitIsBits(reg, s / 2);
    DigitIsBits(SetBits(reg, shift, v), s / 2);
  }

  // ---- where the fields of the ports are -----------------------------------

  predicate Offset(mbits: nat, offs: nat) { offs == 0 || (mbits == 4 && offs == 2) }

  lemma Places(port: nat, mbits: nat, offs: nat)
    requires Layout(mbits) && port < MAX_PORTS && Offset(mbits, offs)
    ensures WordOf(port, mbits) < 3 && ShiftOf(port, mbits, offs) % 2 == 0 && ShiftOf(port, mbits, offs) <= 14
    ensures 16 * WordOf(port, mbits) + ShiftOf(port, mbits, offs) == port * mbits + offs
  {
    if mbits == 2 {
      NarrowPlaces(port);
    } else {
      WidePlaces(port, offs);
    }
  }

  lemma NarrowPlaces(port: nat)
    requires port < MAX_PORTS
    ensures var w, s := WordOf(port, 2), ShiftOf(port, 2, 0);
            w < 3 && s % 2 == 0 && s <= 14 && 16 * w + s == port * 2
  {
    var w := port / 8;
    assert 16 / 2 == 8;
    assert port * 2 % 16 == port * 2 - 16 * w;
  }

  lemma WidePlaces(port: nat, offs: nat)
    requires port < MAX_PORTS && (offs == 0 || offs == 2)
    ensures var w, s := WordOf(port, 4), ShiftOf(port, 4, offs);
            w < 3 && s % 2 == 0 && s <= 14 && 16 * w + s == port * 4 + offs
  {
    var w := port / 4;
    assert 16 / 4 == 4;
    assert (port * 4 + offs) % 16 == port * 4 + offs - 16 * w;
  }

  /** Two fields share a place only if they are the same field of the same port. */
  lemma PlacesDiffer(port: nat, port': nat, mbits: nat, offs: nat, offs': nat)
    requires Layout(mbits) && port < MAX_PORTS && port' < MAX_PORTS && Offset(mbits, offs) && Offset(mbits, offs')
    ensures WordOf(port, mbits) == WordOf(port', mbits) && ShiftOf(port, mbits, offs) == ShiftOf(port', mbits, offs')
            <==> port == port' && offs == offs'
  {
    hide WordOf, ShiftOf;
    Places(port, mbits, offs);
    Places(port', mbits, offs');
    if mbits == 2 {
    } else {
    }
  }

  /** What the hardware's registers look like after one field is changed. */
  function SetField(data: seq<u16>, port: nat, mbits: nat, offs: nat, v: nat): (r: seq<u16>)
    requires Layout(mbits) && |data| == 3 && port < MAX_PORTS && v < 4
    requires Offset(mbits, offs)
    ensures |r| == 3
  {
    Places(port, mbits, offs);
    var w, s := WordOf(port, mbits), ShiftOf(port, mbits, offs);
    data[w := SetBits(data[w], s, v)]
  }

  /** Changing one field changes that field and no other: neither another port's,
      nor the other table's in the shared layout. */
  lemma SetFieldIsolated(data: seq<u16>, port: nat, port': nat, mbits: nat, offs: nat, offs': nat, v: nat)
    requires Layout(mbits) && |data| == 3 && port < MAX_PORTS && port' < MAX_PORTS && v < 4
    requires Offset(mbits, offs) && Offset(mbits, offs')
    ensures Field(SetField(data, port, mbits, offs, v), port', mbits, offs')
            == if port == port' && offs == offs' then v else Field(data, port', mbits, offs')
  {
    hide SetBits, Bits;
    Places(port, mbits, offs);
    Places(port', mbits, offs');
    PlacesDiffer(port, port', mbits, offs, offs');
    var w, s, s' := WordOf(port, mbits), ShiftOf(port, mbits, offs), ShiftOf(port', mbits, offs');
    SetBitsGet(data[w], s, v, s');
  }

  /** The registers holding the first `n` of `vals`, on top of `data`. */
  function Pack(data: seq<u16>, vals: seq<nat>, n: nat, mbits: nat, offs: nat): (r: seq<u16>)
    requires Layout(mbits) && |data| == 3 && n <= |vals| == MAX_PORTS && Offset(mbits, offs)
    requires forall p | 0 <= p < MAX_PORTS :: vals[p] < 4
    ensures |r| == 3
  {
    if n == 0 then data else SetField(Pack(data, vals, n - 1, mbits, offs), n - 1, mbits, offs, vals[n - 1])
  }

  /** Unpacking inverts packing for every vector of values, and packing one table
      leaves the other one's fields alone. */
  lemma {:induction false} UnpackPack(data: seq<u16>, vals: seq<nat>, n: nat, mbits: nat, offs: nat, port: nat, offs': nat)
    requires Layout(mbits) && |data| == 3 && n <= |vals| == MAX_PORTS && port < MAX_PORTS
    requires Offset(mbits, offs) && Offset(mbits, offs')
    requires forall p | 0 <= p < MAX_PORTS :: vals[p] < 4
    ensures Field(Pack(data, vals, n, mbits, offs), port, mbits, offs')
            == if port < n && offs == offs' then vals[port] else Field(data, port, mbits, offs')
    decreases n
  {
    hide SetField, Field;
    if n > 0 {
      UnpackPack(data, vals, n - 1, mbits, offs, port, offs');
      SetFieldIsolated(Pack(data, vals, n - 1, mbits, offs), n - 1, port, mbits, offs, offs', vals[n - 1]);
    }
  }

  /** The parser recovers what was packed. */
  method PackAndParse(k: Entry, members: seq<nat>, mbits: nat) returns (e: Result<VtuEntry>)
    requires Layout(mbits) && |k.data| == 3 && |members| == 11
    requires forall p | 0 <= p < 11 :: members[p] < 4
    ensures k.vid / 0x1000 % 2 == 1 ==> e.Ok? && e.value.member == members
  {
    hide Field, Pack;
    var packed := Pack(k.data, members, 11, mbits, 0);
    e := VtuParse(k.(data := packed), mbits);
    forall p | 0 <= p < 11 ensures e.Ok? ==> e.value.member[p] == members[p] {
      UnpackPack(k.data, members, 11, mbits, 0, p, 0);
      FieldIs(packed, p, mbits, 0);
    }
    assert e.Ok? ==> e.value.member == members;
  }

  /** Both tables in one set of registers: in the 4-bit layout members at offset 0 and
      states at offset 2, written in either order, in the 2-bit layout the states alone.
      Each parser recovers its own. */
  method PackBothAndParse(k: Entry, members: seq<nat>, states: seq<nat>, mbits: nat, statesFirst: bool)
      returns (v: Result<VtuEntry>, s: Result<(nat, seq<nat>)>)
    requires Layout(mbits) && |k.data| == 3 && |members| == 11 && |states| == 11
    requires forall p | 0 <= p < 11 :: members[p] < 4 && states[p] < 4
    ensures k.vid / 0x1000 % 2 == 1 ==> s == Ok((k.sid % 64, states))
    ensures k.vid / 0x1000 % 2 == 1 && mbits == 4 ==> v.Ok? && v.value.member == members
  {
    hide Field, Pack;
    var data;
    if mbits == 2 {
      data := Pack(k.data, states, 11, 2, 0);
      StatesAt(data, k.data, states, 2);
    } else if statesFirst {
      data := Pack(Pack(k.data, states, 11, 4, 2), members, 11, 4, 0);
      SharedWords(k.data, members, 0, states, 2);
    } else {
      data := Pack(Pack(k.data, members, 11, 4, 0), states, 11, 4, 2);
      SharedWords(k.data, states, 2, members, 0);
    }
    s := StuParse(k.(data := data), mbits);
    v := VtuParse(k.(data := data), mbits);
    forall p | 0 <= p < 11
      ensures s.Ok? ==> s.value.1[p] == states[p]
      ensures v.Ok? && mbits == 4 ==> v.value.member[p] == members[p]
    {
      FieldIs(data, p, mbits, if mbits == 4 then 2 else 0);
      FieldIs(data, p, mbits, 0);
    }
    assert s.Ok? ==> s.value.1 == states;
  }

  lemma StatesAt(data: seq<u16>, before: seq<u16>, states: seq<nat>, mbits: nat)
    requires Layout(mbits) && |before| == 3 && |states| == 11 && forall p | 0 <= p < 11 :: states[p] < 4
    requires data == Pack(before, states, 11, mbits, 0)
    ensures forall p | 0 <= p < 11 :: Field(data, p, mbits, 0) == states[p]
  {
    hide Field, Pack;
    forall p | 0 <= p < 11 ensures Field(data, p, mbits, 0) == states[p] {
      UnpackPack(before, states, 11, mbits, 0, p, 0);
    }
  }

  /** What was packed last, and what was packed at the other offset before it. */
  lemma SharedWords(data: seq<u16>, last: seq<nat>, at: nat, first: seq<nat>, at': nat)
    requires |data| == 3 && |last| == 11 && |first| == 11 && (at == 0 || at == 2) && at + at' == 2
    requires forall p | 0 <= p < 11 :: last[p] < 4 && first[p] < 4
    ensures var d := Pack(Pack(data, first, 11, 4, at'), last, 11, 4, at);
            forall p | 0 <= p < 11 :: Field(d, p, 4, at) == last[p] && Field(d, p, 4, at') == first[p]
  {
    hide Field, Pack;
    var e := Pack(data, first, 11, 4, at');
    var d := Pack(e, last, 11, 4, at);
    forall p | 0 <= p < 11 ensures Field(d, p, 4, at) == last[p] && Field(d, p, 4, at') == first[p] {
      UnpackPack(data, first, 11, 4, at', p, at');
      UnpackPack(e, last, 11, 4, at, p, at);
      UnpackPack(e, last, 11, 4, at, p, at');
    }
  }
}
