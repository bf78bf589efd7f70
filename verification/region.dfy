/** Reassembly of a devlink region from addressed chunks: `devlink_region_dup_cb` of
    src/mvls/devlink.c. */
module Regions {
  import opened Words

  /** One chunk of a snapshot: where it belongs and what it holds. */
  datatype Chunk = Chunk(addr: nat, data: seq<u8>)

  function End(c: Chunk): nat { c.addr + |c.data| }

  predicate Covers(c: Chunk, i: nat) { c.addr <= i < End(c) }

  function Max(a: nat, b: nat): nat { if a < b then b else a }

  /** The region after a list of chunks: as long as the largest end so far. */
  function SizeAfter(size: nat, chunks: seq<Chunk>): (r: nat)
    ensures size <= r && forall c | c in chunks :: End(c) <= r
  {
    if chunks == [] then size
    else Max(SizeAfter(size, chunks[..|chunks| - 1]), End(chunks[|chunks| - 1]))
  }

  /** The last chunk that covers position `i`, if any. */
  function Writer(chunks: seq<Chunk>, i: nat): (r: Option<u8>)
    ensures r.None? <==> forall c | c in chunks :: !Covers(c, i)
  {
    if chunks == [] then None
    else
      var c := chunks[|chunks| - 1];
      if Covers(c, i) then Some(c.data[i - c.addr]) else Writer(chunks[..|chunks| - 1], i)
  }

  /** What the region must hold: the latest writer of a position, else what was there. */
  ghost predicate Holds(now: seq<u8>, before: seq<u8>, chunks: seq<Chunk>) {
    |now| == SizeAfter(|before|, chunks)
    && forall i | 0 <= i < |now| ::
         match Writer(chunks, i)
         case Some(b) => now[i] == b
         case None => i < |before| ==> now[i] == before[i]
  }

  /** `struct devlink_region`; no buffer and size 0 at first. */
  class Region {
    var data: array<u8>

    ghost predicate Empty()
      reads this
    {
      data.Length == 0
    }

    constructor ()
      ensures Empty() && fresh(data)
    {
      data := new u8[0];
    }

    /** `realloc`: the old bytes, and room with arbitrary content after them. */
    method Grow(size: nat)
      requires data.Length <= size
      modifies this
      ensures fresh(data) && data.Length == size && data[..old(data.Length)] == old(data[..])
    {
      var buf := new u8[size];
      var i := 0;
      while i < data.Length
        invariant data == old(data) && 0 <= i <= data.Length && data[..] == old(data[..])
        invariant buf[..i] == data[..i]
      {
        buf[i] := data[i];
        i := i + 1;
      }
      assert data[..i] == data[..];
      data := buf;
    }

    /** `memcpy` of one chunk that fits. */
    method Copy(c: Chunk)
      requires c.addr + |c.data| <= data.Length
      modifies data
      ensures forall i | 0 <= i < data.Length ::
                data[i] == if c.addr <= i < c.addr + |c.data| then c.data[i - c.addr] else old(data[i])
    {
      var i := 0;
      while i < |c.data|
        invariant 0 <= i <= |c.data|
        invariant forall k | 0 <= k < data.Length ::
                    data[k] == if c.addr <= k < c.addr + i then c.data[k - c.addr] else old(data[k])
      {
        data[c.addr + i] := c.data[i];
        i := i + 1;
      }
    }

    /** Growing if needed, and the copy. */
    method Put(c: Chunk)
      modifies this, data
      ensures fresh(data) || data == old(data)
      ensures data.Length == Max(old(data.Length), End(c))
      ensures forall i | 0 <= i < data.Length ::
                if c.addr <= i < c.addr + |c.data| then data[i] == c.data[i - c.addr]
                else i < old(data.Length) ==> data[i] == old(data[i])
    {
      ghost var was := data[..];
      if End(c) > data.Length {
        Grow(End(c));
      }
      ghost var grown := data[..];
      assert forall k | 0 <= k < |was| :: grown[k] == was[k] by {
        assert grown[..|was|] == was;
      }
      Copy(c);
    }

    /** One message. Allocation fails beyond `limit` bytes; then the region is
        dropped and the rest of the message ignored. */
    method AddChunks(chunks: seq<Chunk>, limit: nat) returns (ok: bool)
      requires data.Length <= limit
      modifies this, data
      ensures fresh(data) || data == old(data)
      ensures ok <==> forall c | c in chunks :: c.addr + |c.data| <= limit
      ensures ok ==> data.Length <= limit && Holds(data[..], old(data[..]), chunks)
      ensures !ok ==> Empty()
    {
      ghost var before := data[..];
      HoldsNothing(before);
      hide Holds;
      var i := 0;
      while i < |chunks|
        invariant 0 <= i <= |chunks| && data.Length <= limit
        invariant fresh(data) || data == old(data)
        invariant forall c | c in chunks[..i] :: End(c) <= limit
        invariant Holds(data[..], before, chunks[..i])
      {
        var c := chunks[i];
        if End(c) > data.Length && End(c) > limit {
          data := new u8[0];
          return false;
        }
        ghost var was := data[..];
        Put(c);
        assert chunks[..i + 1] == chunks[..i] + [c];
        HoldsOneMore(data[..], was, before, chunks[..i], c);
        i := i + 1;
      }
      assert chunks[..i] == chunks;
      return true;
    }
  }

  lemma HoldsNothing(before: seq<u8>)
    ensures Holds(before, before, [])
  {
  }

  lemma {:induction false} SizeReached(size: nat, chunks: seq<Chunk>)
    ensures SizeAfter(size, chunks) == size || exists c :: c in chunks && End(c) == SizeAfter(size, chunks)
    decreases |chunks|
  {
    if chunks != [] {
      SizeReached(size, chunks[..|chunks| - 1]);
      assert chunks[|chunks| - 1] in chunks;
    }
  }

  /** The size of such a region: every chunk is in it, and it is no larger than what
      was there or the end of some chunk. */
  lemma HoldsSize(now: seq<u8>, before: seq<u8>, chunks: seq<Chunk>)
    requires Holds(now, before, chunks)
    ensures |before| <= |now| && forall c | c in chunks :: c.addr + |c.data| <= |now|
    ensures |now| == |before| || exists c :: c in chunks && c.addr + |c.data| == |now|
  {
    SizeReached(|before|, chunks);
  }

  lemma HoldsOneMore(now: seq<u8>, was: seq<u8>, before: seq<u8>, chunks: seq<Chunk>, c: Chunk)
    requires Holds(was, before, chunks) && |now| == Max(|was|, End(c))
    requires forall i | 0 <= i < |now| ::
               if c.addr <= i < c.addr + |c.data| then now[i] == c.data[i - c.addr]
               else i < |was| ==> now[i] == was[i]
    ensures Holds(now, before, chunks + [c])
  {
    var more := chunks + [c];
    assert more[..|chunks|] == chunks;
    forall i | 0 <= i < |now|
      ensures match Writer(more, i)
              case Some(b) => now[i] == b
              case None => i < |before| ==> now[i] == before[i]
    {
      if !Covers(c, i) && i >= |was| {
        assert forall d | d in chunks :: End(d) <= |was|;
      }
    }
  }

  // ---- several messages, and any order -------------------------------------

  lemma {:induction false} SizeConcat(size: nat, a: seq<Chunk>, b: seq<Chunk>)
    ensures SizeAfter(size, a + b) == SizeAfter(SizeAfter(size, a), b)
    decreases |b|
  {
    if b == [] {
      assert a + b == a;
    } else {
      assert (a + b)[..|a + b| - 1] == a + b[..|b| - 1];
      SizeConcat(size, a, b[..|b| - 1]);
    }
  }

  lemma {:induction false} WriterConcat(a: seq<Chunk>, b: seq<Chunk>, i: nat)
    ensures Writer(a + b, i) == if Writer(b, i).Some? then Writer(b, i) else Writer(a, i)
    decreases |b|
  {
    if b == [] {
      assert a + b == a;
    } else {
      assert (a + b)[..|a + b| - 1] == a + b[..|b| - 1];
      WriterConcat(a, b[..|b| - 1], i);
    }
  }

  /** The split of a dump into messages does not matter. */
  lemma MessagesCompose(now: seq<u8>, mid: seq<u8>, before: seq<u8>, a: seq<Chunk>, b: seq<Chunk>)
    requires Holds(mid, before, a) && Holds(now, mid, b)
    ensures Holds(now, before, a + b)
  {
    SizeConcat(|before|, a, b);
    forall i | 0 <= i < |now|
      ensures match Writer(a + b, i)
              case Some(v) => now[i] == v
              case None => i < |before| ==> now[i] == before[i]
    {
      WriterConcat(a, b, i);
      if Writer(b, i).None? && i >= |mid| {
        assert forall c | c in a :: End(c) <= |mid|;
        assert forall c | c in a :: !Covers(c, i);
      }
    }
  }

  /** Chunks cut out of a snapshot. */
  ghost predicate CutFrom(chunks: seq<Chunk>, snapshot: seq<u8>) {
    forall c | c in chunks :: End(c) <= |snapshot| && c.data == snapshot[c.addr..End(c)]
  }

  ghost predicate Reached(chunks: seq<Chunk>, i: nat) { exists c :: c in chunks && c.addr <= i < c.addr + |c.data| }

  lemma {:induction false} WriterOfCut(chunks: seq<Chunk>, snapshot: seq<u8>, i: nat)
    requires CutFrom(chunks, snapshot) && i < |snapshot| && Writer(chunks, i).Some?
    ensures Writer(chunks, i).value == snapshot[i]
    decreases |chunks|
  {
    var c := chunks[|chunks| - 1];
    assert c in chunks;
    if !Covers(c, i) {
      WriterOfCut(chunks[..|chunks| - 1], snapshot, i);
    }
  }

  lemma {:induction false} SizeOfCut(chunks: seq<Chunk>, snapshot: seq<u8>)
    requires CutFrom(chunks, snapshot)
    ensures SizeAfter(0, chunks) <= |snapshot|
    decreases |chunks|
  {
    if chunks != [] {
      assert chunks[|chunks| - 1] in chunks;
      SizeOfCut(chunks[..|chunks| - 1], snapshot);
    }
  }

  /** Chunks cut from a snapshot and covering it rebuild it exactly, in whatever order
      they arrive and even if they overlap. */
  lemma SnapshotRebuilt(now: seq<u8>, chunks: seq<Chunk>, snapshot: seq<u8>)
    requires Holds(now, [], chunks)
    requires forall c | c in chunks ::
               c.addr + |c.data| <= |snapshot| && c.data == snapshot[c.addr..c.addr + |c.data|]
    requires forall i | 0 <= i < |snapshot| :: Reached(chunks, i)
    ensures now == snapshot
  {
    assert CutFrom(chunks, snapshot);
    SizeOfCut(chunks, snapshot);
    if snapshot != [] {
      var i := |snapshot| - 1;
      assert Reached(chunks, i);
      var c :| c in chunks && c.addr <= i < c.addr + |c.data|;
      assert End(c) <= |now|;
    }
    forall i | 0 <= i < |snapshot| ensures now[i] == snapshot[i] {
      assert Reached(chunks, i);
      var c :| c in chunks && c.addr <= i < c.addr + |c.data|;
      assert Covers(c, i);
      WriterOfCut(chunks, snapshot, i);
    }
  }

  /** The same for the code: a fresh region fed with them holds the snapshot. */
  method Rebuild(chunks: seq<Chunk>, ghost snapshot: seq<u8>, limit: nat) returns (r: Region)
    requires |snapshot| <= limit
    requires forall c | c in chunks ::
               c.addr + |c.data| <= |snapshot| && c.data == snapshot[c.addr..c.addr + |c.data|]
    requires forall i | 0 <= i < |snapshot| :: Reached(chunks, i)
    ensures r.data[..] == snapshot
  {
    hide Holds;
    r := new Region();
    ghost var before := r.data[..];
    assert before == [];
    var ok := r.AddChunks(chunks, limit);
    SnapshotRebuilt(r.data[..], chunks, snapshot);
  }
}
