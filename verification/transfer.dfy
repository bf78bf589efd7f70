/** The output stage of kernel/mdio-netlink.c: EMITs are packed into netlink messages
    of bounded size, closed by an error code and an end marker. Sizes are counted in
    32-bit words, to which netlink aligns everything. */
module Transfer {
  import opened Words

  /** One word after the DATA attribute's header: a datum, the two words of the ERROR
      attribute, or one of the four words of an NLMSG_DONE header. */
  datatype Word = Datum(v: u32) | ErrorHdr | ErrorVal(err: int) | DoneWord(k: nat)

  /** A socket buffer under construction. `claimed` is the length in the first netlink
      header, `nest` the length in the DATA attribute's header (which counts itself);
      both are only brought up to date by the `end` functions. */
  datatype Msg = Msg(claimed: nat, nest: nat, body: seq<Word>)

  /** The netlink and generic netlink headers. */
  const HEADERS := 5
  const FRAME := HEADERS + 1

  /** `genlmsg_put` and `nla_nest_start`. */
  const OPENED: Msg := Msg(HEADERS, 1, [])

  function NestEnd(m: Msg): Msg { m.(nest := 1 + |m.body|) }
  function MsgEnd(m: Msg): Msg { m.(claimed := FRAME + |m.body|) }
  function Fits(cap: nat, m: Msg, words: nat): bool { FRAME + |m.body| + words <= cap }
  function Append(m: Msg, words: seq<Word>): Msg { m.(body := m.body + words) }

  const DONE: seq<Word> := [DoneWord(0), DoneWord(1), DoneWord(2), DoneWord(3)]
  function ErrorAttr(err: int): seq<Word> { [ErrorHdr, ErrorVal(err)] }

  const EMSGSIZE := 90

  // ---- what the receiver sees ----------------------------------------------

  /** The outcome of parsing one buffer: the DATA payload, the ERROR attribute, and
      whether an end marker follows. */
  datatype Seen = Seen(data: Option<seq<Word>>, error: Option<int>, done: bool)

  predicate Parseable(m: Msg) {
    1 <= m.nest && (m.claimed == HEADERS || FRAME + m.nest - 1 <= m.claimed <= FRAME + |m.body|)
  }

  /** A message whose header was never ended claims to end before its attributes: it
      has no DATA, and what follows it does not start with a netlink header. */
  function Receive(m: Msg): Seen
    requires Parseable(m)
  {
    if m.claimed == HEADERS then Seen(None, None, false)
    else
      var attrs := m.body[m.nest - 1..m.claimed - FRAME];
      var error := if |attrs| == 2 && attrs[0] == ErrorHdr && attrs[1].ErrorVal? then Some(attrs[1].err) else None;
      Seen(Some(m.body[..m.nest - 1]), error, m.body[m.claimed - FRAME..] == DONE)
  }

  function Data(vals: seq<u32>): (d: seq<Word>)
    ensures |d| == |vals|
  {
    seq(|vals|, i requires 0 <= i < |vals| => Datum(vals[i]))
  }

  /** A message that carries just `vals`. */
  function Chunk(vals: seq<u32>): Msg { Msg(FRAME + |vals|, 1 + |vals|, Data(vals)) }

  function Flatten(chunks: seq<seq<u32>>): seq<u32> {
    if chunks == [] then [] else Flatten(chunks[..|chunks| - 1]) + chunks[|chunks| - 1]
  }

  function Chunks(chunks: seq<seq<u32>>): seq<Msg> {
    seq(|chunks|, i requires 0 <= i < |chunks| => Chunk(chunks[i]))
  }

  /** The receiver gets all of `trace` in order, the error once and in the last data
      message, and the end marker after it. */
  ghost predicate Delivered(sent: seq<Msg>, trace: seq<u32>, err: int) {
    exists parts: seq<seq<u32>> :: DeliveredAs(sent, parts, err) && Flatten(parts) == trace
  }

  ghost predicate DeliveredAs(sent: seq<Msg>, parts: seq<seq<u32>>, err: int) {
    0 < |sent| == |parts|
    && (forall i | 0 <= i < |sent| :: Parseable(sent[i]) && Receive(sent[i]).data == Some(Data(parts[i])))
    && (forall i | 0 <= i < |sent| - 1 :: Receive(sent[i]).error == None && !Receive(sent[i]).done)
    && Receive(sent[|sent| - 1]).error == (if err == 0 then None else Some(err))
    && Receive(sent[|sent| - 1]).done
  }

  lemma ChunkSeen(vals: seq<u32>)
    ensures Parseable(Chunk(vals)) && Receive(Chunk(vals)) == Seen(Some(Data(vals)), None, false)
  {
    var m := Chunk(vals);
    assert m.body[m.nest - 1..m.claimed - FRAME] == [];
    assert m.body[..m.nest - 1] == Data(vals);
  }

  // ---- closing, as a function ----------------------------------------------

  /** What `mdio_nl_close` sends and returns, from an open message `m`. */
  function Close(cap: nat, m: Msg, last: bool, xerr: int): (seq<Msg>, int)
    requires cap >= FRAME
  {
    var (flushed, withError, ok) := CloseError(cap, NestEnd(m), xerr);
    if !ok then (flushed, -EMSGSIZE)
    else
      var ended := MsgEnd(withError);
      if !last then (flushed + [ended], 0)
      else if Fits(cap, ended, |DONE|) then (flushed + [Append(ended, DONE)], 0)
      else if Fits(cap, OPENED, |DONE|) then (flushed + [Flushed(ended)] + [Append(OPENED, DONE)], 0)
      else (flushed + [Flushed(ended)], -EMSGSIZE)
  }

  /** A flush in the middle of closing ends the nest and the message once more. */
  function Flushed(m: Msg): Msg { MsgEnd(NestEnd(m)) }

  function CloseError(cap: nat, m: Msg, xerr: int): (seq<Msg>, Msg, bool) {
    if xerr == 0 then ([], m, true)
    else if Fits(cap, m, 2) then ([], Append(m, ErrorAttr(xerr)), true)
    else if Fits(cap, OPENED, 2) then ([Flushed(m)], Append(OPENED, ErrorAttr(xerr)), true)
    else ([Flushed(m)], OPENED, false)
  }

  /** The number of words in the open message after `n` words were emitted: a full
      message is only sent when the next word comes. */
  function LastFill(cap: nat, n: nat): (used: nat)
    requires FRAME < cap
    ensures FRAME + used <= cap
  {
    if n == 0 then 0 else (n - 1) % (cap - FRAME) + 1
  }

  lemma {:induction false} FullParts(parts: seq<seq<u32>>, size: nat)
    requires forall i | 0 <= i < |parts| :: |parts[i]| == size
    ensures |Flatten(parts)| == |parts| * size
  {
    if parts != [] {
      FullParts(parts[..|parts| - 1], size);
      assert |parts| * size == (|parts| - 1) * size + size;
    }
  }

  lemma FillOf(size: nat, full: nat, rest: nat)
    requires 0 < size && rest <= size && (full > 0 ==> rest > 0)
    ensures LastFill(FRAME + size, full * size + rest) == rest
  {
    if rest > 0 {
      QuotientUnique(full * size + rest - 1, size, full, rest - 1);
    } else {
      assert full * size == 0;
    }
  }

  // ---- the transfer object -------------------------------------------------

  /** `struct mdio_nl_xfer`, as far as output is concerned. Allocation and unicast
      succeed. */
  class Xfer {
    const cap: nat
    var msg: Msg
    var sent: seq<Msg>
    /** The data of the messages sent so far, and of the open one. */
    ghost var parts: seq<seq<u32>>
    ghost var tail: seq<u32>

    /** What was emitted so far. */
    ghost function Trace(): seq<u32>
      reads this
    {
      Flatten(parts) + tail
    }

    /** An open message with nothing but data in it; all earlier ones went out full. */
    ghost predicate Valid()
      reads this
    {
      FRAME < cap && msg == OPENED.(body := Data(tail)) && sent == Chunks(parts) && |tail| <= cap - FRAME
      && (forall i | 0 <= i < |parts| :: |parts[i]| == cap - FRAME)
      && (parts != [] ==> tail != [])
    }

    constructor (capacity: nat)
      requires FRAME < capacity
      ensures Valid() && cap == capacity && Trace() == [] && sent == [] && tail == []
    {
      cap := capacity;
      msg := OPENED;
      sent, parts, tail := [], [], [];
    }

    /** `mdio_nl_open`: allocates a message and starts the DATA nest. */
    method Open() returns (err: int)
      modifies this
      ensures err == if 6 <= cap then 0 else -90
      ensures err == 0 ==> msg == OPENED
      ensures sent == old(sent) && parts == old(parts) && tail == old(tail)
    {
      if cap < FRAME {
        return -EMSGSIZE;
      }
      msg := OPENED;
      return 0;
    }

    /** `nla_put` and its kin: refused without a trace if there is no room. */
    method Put(words: seq<Word>) returns (ok: bool)
      modifies this
      ensures ok == Fits(cap, old(msg), |words|)
      ensures msg == if ok then Append(old(msg), words) else old(msg)
      ensures sent == old(sent) && parts == old(parts) && tail == old(tail)
    {
      ok := Fits(cap, msg, |words|);
      if ok {
        msg := Append(msg, words);
      }
    }

    /** How full the open message is depends on the number of words emitted only. */
    lemma LastFillIs()
      requires Valid()
      ensures |tail| == LastFill(cap, |Trace()|)
    {
      FullParts(parts, cap - FRAME);
      FillOf(cap - FRAME, |parts|, |tail|);
    }

    /** `mdio_nl_flush`. */
    method Flush() returns (err: int)
      requires FRAME <= cap
      modifies this
      ensures err == 0 && sent == old(sent) + [Flushed(old(msg))] && msg == OPENED
      ensures parts == old(parts) && tail == old(tail)
      decreases 1
    {
      err := CloseMsg(false, 0);
      if err != 0 {
        return;
      }
      err := Open();
    }

    /** `mdio_nl_close`. */
    method CloseMsg(last: bool, xerr: int) returns (err: int)
      requires FRAME <= cap
      modifies this
      ensures sent == old(sent) + Close(cap, old(msg), last, xerr).0
      ensures err == Close(cap, old(msg), last, xerr).1
      ensures parts == old(parts) && tail == old(tail)
      decreases if last || xerr != 0 then 2 else 0
    {
      msg := NestEnd(msg);
      if xerr != 0 {
        var ok := Put(ErrorAttr(xerr));
        if !ok {
          err := Flush();
          if err != 0 {
            return;
          }
          ok := Put(ErrorAttr(xerr));
          if !ok {
            return -EMSGSIZE;
          }
        }
      }
      msg := MsgEnd(msg);
      if last {
        var ok := Put(DONE);
        if !ok {
          err := Flush();
          if err != 0 {
            return;
          }
          ok := Put(DONE);
          if !ok {
            return -EMSGSIZE;
          }
        }
      }
      sent := sent + [msg];
      return 0;
    }

    /** `mdio_nl_emit`: as long as a message can hold one datum, nothing is lost,
        duplicated or reordered. */
    method Emit(datum: u32) returns (err: int)
      requires Valid()
      modifies this
      ensures Valid() && err == 0 && Trace() == old(Trace()) + [datum]
    {
      hide Data, Chunk, Chunks, Flatten, Flushed;
      var ok := Put([Datum(datum)]);
      if !ok {
        err := Flush();
        if err != 0 {
          return;
        }
        FullMessage(parts, tail);
        parts, tail := parts + [tail], [];
        ok := Put([Datum(datum)]);
      }
      OneMoreWord(parts, tail, datum);
      tail := tail + [datum];
      return 0;
    }
  }

  /** A full message goes out as a chunk and takes its data along. */
  lemma FullMessage(parts: seq<seq<u32>>, tail: seq<u32>)
    ensures Flushed(OPENED.(body := Data(tail))) == Chunk(tail)
    ensures Chunks(parts + [tail]) == Chunks(parts) + [Chunk(tail)]
    ensures Flatten(parts + [tail]) + [] == Flatten(parts) + tail
    ensures Data([]) == []
  {
    assert (parts + [tail])[..|parts|] == parts;
  }

  lemma OneMoreWord(parts: seq<seq<u32>>, tail: seq<u32>, datum: u32)
    ensures Data(tail + [datum]) == Data(tail) + [Datum(datum)]
    ensures Flatten(parts) + (tail + [datum]) == Flatten(parts) + tail + [datum]
  {
  }

  // ---- when closing delivers everything ------------------------------------

  /** Room for the closing words: after the data of the open message there must be
      space for the end marker, or, with an error, either for both attribute and
      marker or for neither, so that both move to a new message together. */
  predicate CloseFits(cap: nat, used: nat, err: int)
    requires FRAME + used <= cap
  {
    var room := cap - FRAME - used;
    if err == 0 then room >= 4 else room >= 6 || (room < 2 && cap - FRAME >= 6)
  }

  lemma FlattenSnoc(parts: seq<seq<u32>>, p: seq<u32>)
    ensures Flatten(parts + [p]) == Flatten(parts) + p
  {
    assert (parts + [p])[..|parts|] == parts;
  }

  /** The last message of a close that went well: data, maybe an error, end marker. */
  function Last(vals: seq<u32>, err: int): Msg {
    var attr := if err == 0 then [] else ErrorAttr(err);
    Msg(FRAME + |vals| + |attr|, 1 + |vals|, Data(vals) + attr + DONE)
  }

  lemma LastSeen(vals: seq<u32>, err: int)
    ensures Parseable(Last(vals, err))
    ensures Receive(Last(vals, err)) == Seen(Some(Data(vals)), if err == 0 then None else Some(err), true)
  {
    var m := Last(vals, err);
    var attr := if err == 0 then [] else ErrorAttr(err);
    assert m.body[..m.nest - 1] == Data(vals);
    assert m.body[m.nest - 1..m.claimed - FRAME] == attr;
    assert m.body[m.claimed - FRAME..] == DONE;
  }

  /** Full messages followed by a good last one are a delivery. */
  lemma GoodEnding(parts: seq<seq<u32>>, vals: seq<u32>, err: int)
    ensures Delivered(Chunks(parts) + [Last(vals, err)], Flatten(parts) + vals, err)
  {
    hide Receive, Parseable, Last;
    var sent, whole := Chunks(parts) + [Last(vals, err)], parts + [vals];
    LastSeen(vals, err);
    forall i | 0 <= i < |parts| ensures Parseable(sent[i]) && Receive(sent[i]) == Seen(Some(Data(whole[i])), None, false) {
      ChunkSeen(parts[i]);
    }
    FlattenSnoc(parts, vals);
    assert DeliveredAs(sent, whole, err);
  }

  lemma CloseDelivers(cap: nat, parts: seq<seq<u32>>, tail: seq<u32>, err: int)
    requires FRAME < cap && FRAME + |tail| <= cap && CloseFits(cap, |tail|, err)
    ensures var m := OPENED.(body := Data(tail));
            Delivered(Chunks(parts) + Close(cap, m, true, err).0, Flatten(parts) + tail, err)
  {
    hide Delivered;
    var m := OPENED.(body := Data(tail));
    var last := Close(cap, m, true, err).0;
    if cap - FRAME - |tail| >= 4 {
      GoodEnding(parts, tail, err);
      assert last[0].body == Last(tail, err).body;
      assert last == [Last(tail, err)];
    } else {
      FlattenSnoc(parts, tail);
      GoodEnding(parts + [tail], [], err);
      assert Chunks(parts + [tail]) == Chunks(parts) + [Chunk(tail)];
      assert last[1].body == Last([], err).body;
      assert last == [Chunk(tail)] + [Last([], err)];
      assert Chunks(parts) + last == Chunks(parts + [tail]) + [Last([], err)];
      assert Flatten(parts + [tail]) + [] == Flatten(parts) + tail;
    }
  }

  lemma CloseLoses(cap: nat, tail: seq<u32>, err: int)
    requires FRAME < cap && FRAME + |tail| <= cap && !CloseFits(cap, |tail|, err)
    ensures var last := Close(cap, OPENED.(body := Data(tail)), true, err).0;
            |last| > 0 && Parseable(last[|last| - 1]) &&
            var seen := Receive(last[|last| - 1]);
            seen.data == None || !seen.done
  {
  }

  /** The close is right in exactly these cases; in all others the end marker, and
      with it a pending error, is lost in a malformed message. */
  lemma CloseDeliversIff(cap: nat, parts: seq<seq<u32>>, tail: seq<u32>, err: int)
    requires FRAME < cap && FRAME + |tail| <= cap
    ensures var last := Close(cap, OPENED.(body := Data(tail)), true, err).0;
            Delivered(Chunks(parts) + last, Flatten(parts) + tail, err) <==> CloseFits(cap, |tail|, err)
  {
    var last := Close(cap, OPENED.(body := Data(tail)), true, err).0;
    var sent := Chunks(parts) + last;
    if CloseFits(cap, |tail|, err) {
      CloseDelivers(cap, parts, tail, err);
    } else {
      CloseLoses(cap, tail, err);
      hide Close, Receive, Parseable;
      assert sent[|sent| - 1] == last[|last| - 1];
      forall whole: seq<seq<u32>> ensures !DeliveredAs(sent, whole, err) {
      }
    }
  }

  /** How an error gets lost: its attribute fits, the end marker does not. The second
      flush ends the nest around the attribute, so the receiver takes it for two more
      data words, and the end marker follows a header that was never ended. */
  lemma ErrorSwallowed(cap: nat, tail: seq<u32>, err: int)
    requires err != 0 && cap >= FRAME + 4 && 2 <= cap - FRAME - |tail| < 6
    ensures var (sent, ret) := Close(cap, OPENED.(body := Data(tail)), true, err);
            ret == 0 && |sent| == 2 && Parseable(sent[0]) && Parseable(sent[1])
            && Receive(sent[0]) == Seen(Some(Data(tail) + ErrorAttr(err)), None, false)
            && Receive(sent[1]) == Seen(None, None, false)
  {
    var sent := Close(cap, OPENED.(body := Data(tail)), true, err).0;
    var m := sent[0];
    assert m.body == Data(tail) + ErrorAttr(err);
    assert m.body[..m.nest - 1] == m.body;
    assert m.body[m.nest - 1..m.claimed - FRAME] == [];
  }

  /** The code of the close does not tell whether everything was delivered: it is 0
      whenever some message can hold an end marker, even if it was misplaced. */
  lemma CloseReturns(cap: nat, tail: seq<u32>, err: int)
    requires FRAME < cap && FRAME + |tail| <= cap
    ensures Close(cap, OPENED.(body := Data(tail)), true, err).1
            == if CloseFits(cap, |tail|, err) || cap - 6 >= 4 then 0 else -90
  {
  }

  // ---- the data of every close ---------------------------------------------

  function DataOf(m: Msg): seq<Word>
    requires Parseable(m)
  {
    var data := Receive(m).data;
    if data == None then [] else data.value
  }

  /** All the data words that the receiver gets, message after message. */
  function AllData(sent: seq<Msg>): seq<Word>
    requires forall i | 0 <= i < |sent| :: Parseable(sent[i])
  {
    if sent == [] then [] else DataOf(sent[0]) + AllData(sent[1..])
  }

  lemma {:induction false} AllDataConcat(sent: seq<Msg>, more: seq<Msg>)
    requires forall i | 0 <= i < |sent| :: Parseable(sent[i])
    requires forall i | 0 <= i < |more| :: Parseable(more[i])
    ensures AllData(sent + more) == AllData(sent) + AllData(more)
    decreases |sent|
  {
    hide Parseable, DataOf;
    if sent == [] {
      assert sent + more == more;
    } else {
      AllDataConcat(sent[1..], more);
      assert (sent + more)[1..] == sent[1..] + more;
    }
  }

  lemma OneMessage(m: Msg)
    requires Parseable(m)
    ensures AllData([m]) == DataOf(m)
  {
    assert [m][1..] == [];
  }

  lemma {:induction false} AllDataOfChunks(parts: seq<seq<u32>>)
    ensures forall i | 0 <= i < |parts| :: Parseable(Chunk(parts[i]))
    ensures AllData(Chunks(parts)) == Data(Flatten(parts))
    decreases |parts|
  {
    hide Parseable, Receive, Chunk;
    if parts != [] {
      var init, p := parts[..|parts| - 1], parts[|parts| - 1];
      AllDataOfChunks(init);
      ChunkSeen(p);
      OneMessage(Chunk(p));
      hide AllData;
      AllDataConcat(Chunks(init), [Chunk(p)]);
      assert Chunks(parts) == Chunks(init) + [Chunk(p)];
      assert Data(Flatten(init) + p) == Data(Flatten(init)) + Data(p);
    }
  }

  /** When the attribute of a pending error ends up between the data. */
  predicate Swallows(cap: nat, used: nat, err: int)
    requires FRAME + used <= cap
  {
    err != 0 && !CloseFits(cap, used, err) && cap - FRAME >= 2
  }

  /** A message of payload only, and one whose header was never ended. */
  function Whole(words: seq<Word>): Msg { Msg(FRAME + |words|, 1 + |words|, words) }
  const LOST: Msg := Append(OPENED, DONE)

  lemma WholeData(words: seq<Word>)
    ensures Parseable(Whole(words)) && DataOf(Whole(words)) == words
    ensures Parseable(LOST) && DataOf(LOST) == []
  {
    assert Whole(words).body[..|words|] == words;
  }

  /** The messages of a close in front of a possible lost one. */
  function CloseHead(cap: nat, tail: seq<u32>, err: int): seq<Msg>
    requires FRAME + |tail| <= cap
  {
    var room := cap - FRAME - |tail|;
    if CloseFits(cap, |tail|, err) then
      if room >= 4 then [Last(tail, err)] else [Whole(Data(tail))] + [Last([], err)]
    else if err == 0 || cap - FRAME < 2 then [Whole(Data(tail))]
    else if room >= 2 then [Whole(Data(tail) + ErrorAttr(err))]
    else [Whole(Data(tail))] + [Whole(ErrorAttr(err))]
  }

  function CloseRest(cap: nat, used: nat, err: int): seq<Msg>
    requires FRAME + used <= cap
  {
    if CloseFits(cap, used, err) || cap - FRAME < 4 then [] else [LOST]
  }

  lemma GoodShape(cap: nat, tail: seq<u32>, err: int)
    requires FRAME < cap && FRAME + |tail| <= cap && CloseFits(cap, |tail|, err)
    ensures Close(cap, OPENED.(body := Data(tail)), true, err).0 == CloseHead(cap, tail, err)
  {
    var last := Close(cap, OPENED.(body := Data(tail)), true, err).0;
    if cap - FRAME - |tail| >= 4 {
      assert last[0].body == Last(tail, err).body;
    } else {
      assert last[0] == Whole(Data(tail));
      assert last[1].body == Last([], err).body;
    }
  }

  lemma PlainShape(cap: nat, tail: seq<u32>, err: int)
    requires FRAME < cap && FRAME + |tail| <= cap && !CloseFits(cap, |tail|, err) && (err == 0 || cap - FRAME < 2)
    ensures Close(cap, OPENED.(body := Data(tail)), true, err).0 == CloseHead(cap, tail, err) + CloseRest(cap, |tail|, err)
  {
    assert Close(cap, OPENED.(body := Data(tail)), true, err).0[0] == Whole(Data(tail));
  }

  lemma SwallowedShape(cap: nat, tail: seq<u32>, err: int)
    requires FRAME < cap && FRAME + |tail| <= cap && Swallows(cap, |tail|, err)
    ensures Close(cap, OPENED.(body := Data(tail)), true, err).0 == CloseHead(cap, tail, err) + CloseRest(cap, |tail|, err)
  {
    var last := Close(cap, OPENED.(body := Data(tail)), true, err).0;
    hide Data;
    if cap - FRAME - |tail| >= 2 {
      assert last[0] == Whole(Data(tail) + ErrorAttr(err));
    } else {
      assert last[1].body == ErrorAttr(err);
      assert last[1] == Whole(ErrorAttr(err)) && last[0] == Whole(Data(tail));
    }
  }

  lemma CloseShape(cap: nat, tail: seq<u32>, err: int)
    requires FRAME < cap && FRAME + |tail| <= cap
    ensures Close(cap, OPENED.(body := Data(tail)), true, err).0 == CloseHead(cap, tail, err) + CloseRest(cap, |tail|, err)
  {
    hide Close, CloseHead, CloseFits;
    if CloseFits(cap, |tail|, err) {
      GoodShape(cap, tail, err);
    } else if err == 0 || cap - FRAME < 2 {
      PlainShape(cap, tail, err);
    } else {
      SwallowedShape(cap, tail, err);
    }
  }

  lemma CloseHeadData(cap: nat, tail: seq<u32>, err: int)
    requires FRAME < cap && FRAME + |tail| <= cap
    ensures var head := CloseHead(cap, tail, err);
            (forall i | 0 <= i < |head| :: Parseable(head[i]))
            && AllData(head) == Data(tail) + (if Swallows(cap, |tail|, err) then ErrorAttr(err) else [])
  {
    hide Receive, Parseable, Whole, Last;
    var data, attr := Data(tail), ErrorAttr(err);
    WholeData(data);
    WholeData(attr);
    WholeData(data + attr);
    LastSeen(tail, err);
    LastSeen([], err);
    OneMessage(Whole(data));
    OneMessage(Whole(attr));
    OneMessage(Whole(data + attr));
    OneMessage(Last(tail, err));
    OneMessage(Last([], err));
    hide AllData;
    AllDataConcat([Whole(data)], [Whole(attr)]);
    AllDataConcat([Whole(data)], [Last([], err)]);
  }

  /** The messages that one close sends carry the data of the open message, and the
      error attribute as two more words if it is swallowed. */
  lemma CloseData(cap: nat, tail: seq<u32>, err: int)
    requires FRAME < cap && FRAME + |tail| <= cap
    ensures var last := Close(cap, OPENED.(body := Data(tail)), true, err).0;
            (forall i | 0 <= i < |last| :: Parseable(last[i]))
            && AllData(last) == Data(tail) + (if Swallows(cap, |tail|, err) then ErrorAttr(err) else [])
  {
    CloseShape(cap, tail, err);
    hide Close, CloseHead, Parseable, CloseFits, DataOf;
    CloseHeadData(cap, tail, err);
    WholeData([]);
    OneMessage(LOST);
    AllDataConcat(CloseHead(cap, tail, err), CloseRest(cap, |tail|, err));
  }

  /** Whatever the capacity and the error, the receiver gets every emitted word, once
      and in order; the only thing ever added is a swallowed error. What can be lost
      is the error and the end marker. */
  lemma DataConserved(cap: nat, parts: seq<seq<u32>>, tail: seq<u32>, err: int)
    requires FRAME < cap && FRAME + |tail| <= cap
    ensures var sent := Chunks(parts) + Close(cap, OPENED.(body := Data(tail)), true, err).0;
            (forall i | 0 <= i < |sent| :: Parseable(sent[i]))
            && AllData(sent) == Data(Flatten(parts) + tail) + (if Swallows(cap, |tail|, err) then ErrorAttr(err) else [])
  {
    hide Close, Receive, Parseable, AllData;
    var last := Close(cap, OPENED.(body := Data(tail)), true, err).0;
    CloseData(cap, tail, err);
    AllDataOfChunks(parts);
    AllDataConcat(Chunks(parts), last);
    assert Data(Flatten(parts) + tail) == Data(Flatten(parts)) + Data(tail);
  }
}
