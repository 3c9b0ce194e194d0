/** A cache of an object's aligned chunks, the least recently used given up first, read by many at once. */
module ChunkCache {
  import opened Bits
  import opened Streams

  /** What is cached: the object, the size of a chunk, and how many bytes may stay (none or less: any number). */
  datatype Object = Object(bytes: seq<byte>, chunk: nat, budget: int)

  predicate ObjectOK(o: Object) { 0 < o.chunk }

  datatype Chunk = Chunk(idx: nat, data: seq<byte>)

  /** Where chunk idx starts. */
  function Start(o: Object, idx: nat): nat
    decreases idx
  {
    if idx == 0 then 0 else Start(o, idx - 1) + o.chunk
  }

  function Min(a: nat, b: nat): nat { if a < b then a else b }

  /** Chunk idx of the object; the last one may be short. */
  function ChunkOf(o: Object, idx: nat): (data: seq<byte>)
    requires Start(o, idx) <= |o.bytes|
  {
    o.bytes[Start(o, idx)..Min(Start(o, idx) + o.chunk, |o.bytes|)]
  }

  /** pos / chunk is the chunk pos lies in. */
  lemma ChunkIndex(o: Object, pos: nat, idx: nat)
    requires ObjectOK(o) && idx == pos / o.chunk
    ensures Start(o, idx) <= pos < Start(o, idx) + o.chunk && Start(o, idx) == idx * o.chunk
  {
    StartIs(o, idx);
  }

  lemma {:induction false} StartIs(o: Object, idx: nat)
    ensures Start(o, idx) == idx * o.chunk
    decreases idx
  {
    if idx > 0 {
      StartIs(o, idx - 1);
      assert idx * o.chunk == (idx - 1) * o.chunk + o.chunk;
    }
  }

  // ----- the map and the list

  /** Most recently used first. */
  type List = seq<Chunk>

  /** The map a list of chunks with one chunk an index makes. */
  function Table(lru: List): (t: map<nat, Chunk>) {
    if lru == [] then map[] else Table(lru[1..])[lru[0].idx := lru[0]]
  }

  predicate OneEach(lru: List) {
    lru != [] ==> lru[0].idx !in Table(lru[1..]) && OneEach(lru[1..])
  }

  function Total(lru: List): nat {
    if lru == [] then 0 else |lru[0].data| + Total(lru[1..])
  }

  function Without(lru: List, idx: nat): (r: List) {
    if lru == [] then [] else if lru[0].idx == idx then lru[1..] else [lru[0]] + Without(lru[1..], idx)
  }

  /** Taking a chunk off the list takes it, and only it, out of the map and the total. */
  lemma {:induction false} WithoutTakes(lru: List, idx: nat)
    requires OneEach(lru) && idx in Table(lru)
    ensures OneEach(Without(lru, idx)) && Table(Without(lru, idx)) == Table(lru) - {idx}
    ensures Table(lru)[idx].idx == idx
    ensures Total(Without(lru, idx)) + |Table(lru)[idx].data| == Total(lru)
    ensures |Without(lru, idx)| == |lru| - 1
  {
    if lru[0].idx != idx {
      WithoutTakes(lru[1..], idx);
      var r := Without(lru, idx);
      assert r[1..] == Without(lru[1..], idx);
    }
  }

  /** The same of the chunk at the back. */
  lemma {:induction false} BackTakes(lru: List)
    requires OneEach(lru) && lru != []
    ensures var back, rest := lru[|lru| - 1], lru[..|lru| - 1];
      && OneEach(rest) && back.idx in Table(lru) && Table(rest) == Table(lru) - {back.idx}
      && Total(rest) + |back.data| == Total(lru)
  {
    if |lru| > 1 {
      BackTakes(lru[1..]);
      assert lru[..|lru| - 1][1..] == lru[1..][..|lru| - 2];
    }
  }

  // ----- the cache as a value

  datatype Cache = Cache(table: map<nat, Chunk>, lru: List, resident: nat)

  predicate Genuine(o: Object, t: map<nat, Chunk>) {
    forall idx | idx in t :: t[idx].idx == idx && Start(o, idx) < |o.bytes| && t[idx].data == ChunkOf(o, idx)
  }

  /**
   Map and list hold the same chunks, one each, all the object's; resident is their size; and they keep to the budget.
   */
  predicate CacheOK(o: Object, c: Cache) {
    && OneEach(c.lru) && c.table == Table(c.lru) && c.resident == Total(c.lru)
    && Genuine(o, c.table)
    && (o.budget > 0 ==> c.resident <= o.budget || |c.lru| <= 1)
  }

  const EMPTY := Cache(map[], [], 0)

  /** A chunk used moves to the front. */
  function Promoted(c: Cache, idx: nat): (r: Cache)
    requires idx in c.table
  {
    c.(lru := [c.table[idx]] + Without(c.lru, idx))
  }

  lemma PromotedOK(o: Object, c: Cache, idx: nat)
    requires CacheOK(o, c) && idx in c.table
    ensures CacheOK(o, Promoted(c, idx)) && |Promoted(c, idx).lru| == |c.lru|
  {
    WithoutTakes(c.lru, idx);
    var lru := Promoted(c, idx).lru;
    assert lru[1..] == Without(c.lru, idx);
  }

  /** Chunks are given up from the back until the rest fits or one is left. */
  function Evicted(o: Object, c: Cache): (r: Cache)
    decreases |c.lru|
  {
    if o.budget <= 0 || c.resident <= o.budget || |c.lru| <= 1 then c else Evicted(o, DropBack(c))
  }

  function DropBack(c: Cache): (r: Cache)
    requires c.lru != []
  {
    var back := c.lru[|c.lru| - 1];
    Cache(c.table - {back.idx}, c.lru[..|c.lru| - 1], if |back.data| <= c.resident then c.resident - |back.data| else 0)
  }

  /** Everything but the budget. */
  predicate Linked(o: Object, c: Cache) {
    OneEach(c.lru) && c.table == Table(c.lru) && c.resident == Total(c.lru) && Genuine(o, c.table)
  }

  lemma DropBackLinked(o: Object, c: Cache)
    requires Linked(o, c) && c.lru != []
    ensures Linked(o, DropBack(c)) && |c.lru[|c.lru| - 1].data| <= c.resident
  {
    BackTakes(c.lru);
  }

  lemma {:induction false} EvictedOK(o: Object, c: Cache)
    requires Linked(o, c)
    ensures CacheOK(o, Evicted(o, c)) && (c.lru != [] ==> Evicted(o, c).lru != [] && Evicted(o, c).lru[0] == c.lru[0])
    decreases |c.lru|
  {
    if !(o.budget <= 0 || c.resident <= o.budget || |c.lru| <= 1) {
      DropBackLinked(o, c);
      EvictedOK(o, DropBack(c));
    }
  }

  /** A fetched chunk goes in at the front, unless another reader was faster. */
  function Inserted(o: Object, c: Cache, idx: nat, data: seq<byte>): (r: Cache) {
    if idx in c.table then Promoted(c, idx)
    else Evicted(o, Pushed(c, Chunk(idx, data)))
  }

  /** With a chunk put in at the front. */
  function Pushed(c: Cache, k: Chunk): (r: Cache) {
    Cache(c.table[k.idx := k], [k] + c.lru, c.resident + |k.data|)
  }

  lemma PushedLinked(o: Object, c: Cache, k: Chunk)
    requires Linked(o, c) && k.idx !in c.table && Start(o, k.idx) < |o.bytes| && k.data == ChunkOf(o, k.idx)
    ensures Linked(o, Pushed(c, k)) && Pushed(c, k).lru != [] && Pushed(c, k).lru[0] == k
  {
    assert ([k] + c.lru)[1..] == c.lru;
  }

  lemma InsertedOK(o: Object, c: Cache, idx: nat, data: seq<byte>)
    requires CacheOK(o, c) && Start(o, idx) < |o.bytes| && data == ChunkOf(o, idx)
    ensures CacheOK(o, Inserted(o, c, idx, data)) && Inserted(o, c, idx, data).lru != []
    ensures Inserted(o, c, idx, data).lru[0] == Chunk(idx, data)
  {
    if idx in c.table {
      PromotedOK(o, c, idx);
    } else {
      PushedLinked(o, c, Chunk(idx, data));
      EvictedOK(o, Pushed(c, Chunk(idx, data)));
    }
  }

  // ----- a read, chunk by chunk

  /** What a read of len bytes at off may come to. */
  datatype Result = Full | EndOfFile | Negative | FetchFailed

  /** What a chunk's data from some byte on gives a read that has room for so much more. */
  function Share(data: seq<byte>, from: int, room: nat): (s: seq<byte>) {
    var avail := |data| - from;
    var want := if avail < room then avail else room;
    if 0 <= from && 0 <= want then data[from..from + want] else []
  }

  /** The part of pos's chunk that a read ending at end gets. */
  function ShareAt(o: Object, data: seq<byte>, pos: nat, end: nat): (s: seq<byte>)
    requires ObjectOK(o) && pos <= end
  {
    Share(data, pos - pos / o.chunk * o.chunk, end - pos)
  }

  lemma ShareOfChunk(o: Object, idx: nat, pos: nat, end: nat)
    requires Start(o, idx) <= pos < end <= |o.bytes| && pos < Start(o, idx) + o.chunk
    ensures var s := Share(ChunkOf(o, idx), pos - Start(o, idx), end - pos);
      0 < |s| <= end - pos && forall i | 0 <= i < |s| :: s[i] == o.bytes[pos + i]
  {
  }

  /** It is the object's own bytes, and at least one of them. */
  lemma ShareIs(o: Object, pos: nat, end: nat)
    requires ObjectOK(o) && pos < end <= |o.bytes|
    ensures Start(o, pos / o.chunk) < |o.bytes|
    ensures var s := ShareAt(o, ChunkOf(o, pos / o.chunk), pos, end);
      0 < |s| <= end - pos && forall i | 0 <= i < |s| :: s[i] == o.bytes[pos + i]
  {
    var idx := pos / o.chunk;
    ChunkIndex(o, pos, idx);
    ShareOfChunk(o, idx, pos, end);
  }

  /** n bytes of p from at on are the object's from off on, and the others are as they were. */
  ghost predicate Copied(p: array<byte>, was: seq<byte>, at: nat, n: nat, bytes: seq<byte>, off: nat)
    reads p
  {
    && at + n <= p.Length == |was| && off + n <= |bytes|
    && forall j | 0 <= j < p.Length :: p[j] == if at <= j < at + n then bytes[off + (j - at)] else was[j]
  }

  /** Copies bytes that follow those already there. */
  method CopyMore(p: array<byte>, ghost was: seq<byte>, at: nat, n: nat, s: seq<byte>, ghost bytes: seq<byte>,
      ghost off: nat)
    requires Copied(p, was, at, n, bytes, off) && at + n + |s| <= p.Length && off + n + |s| <= |bytes|
    requires forall i | 0 <= i < |s| :: s[i] == bytes[off + n + i]
    modifies p
    ensures Copied(p, was, at, n + |s|, bytes, off)
  {
    forall j | at + n <= j < at + n + |s| {
      p[j] := s[j - (at + n)];
    }
  }

  class Chunks {
    const o: Object
    var table: map<nat, Chunk>
    var lru: List
    var resident: nat

    ghost function State(): Cache
      reads this
    {
      Cache(table, lru, resident)
    }

    ghost predicate Valid()
      reads this
    {
      ObjectOK(o) && CacheOK(o, State())
    }

    constructor (o: Object)
      requires ObjectOK(o)
      ensures Valid() && this.o == o && State() == EMPTY
    {
      this.o, table, lru, resident := o, map[], [], 0;
    }

    /** A hit is promoted. */
    method Lookup(idx: nat) returns (data: Option<seq<byte>>)
      requires Valid()
      modifies `lru
      ensures Valid()
      ensures data == if idx in table then Some(table[idx].data) else None
      ensures State() == if idx in table then Promoted(old(State()), idx) else old(State())
    {
      if idx !in table {
        return None;
      }
      PromotedOK(o, State(), idx);
      lru := [table[idx]] + Without(lru, idx);
      data := Some(table[idx].data);
    }

    method EvictLocked()
      requires Linked(o, State())
      modifies this
      ensures State() == Evicted(o, old(State()))
    {
      if o.budget <= 0 {
        return;
      }
      while resident > o.budget && |lru| > 1
        invariant Linked(o, State()) == true && Evicted(o, State()) == Evicted(o, old(State()))
        decreases |lru|
      {
        DropBackLinked(o, State());
        var back := lru[|lru| - 1];
        lru, table, resident := lru[..|lru| - 1], table - {back.idx}, resident - |back.data|;
      }
    }

    method InsertNew(idx: nat, data: seq<byte>)
      requires Linked(o, State()) && idx !in table && Start(o, idx) < |o.bytes| && data == ChunkOf(o, idx)
      modifies this
      ensures State() == Inserted(o, old(State()), idx, data)
    {
      PushedLinked(o, State(), Chunk(idx, data));
      lru := [Chunk(idx, data)] + lru;
      table := table[idx := Chunk(idx, data)];
      resident := resident + |data|;
      EvictLocked();
    }

    /** The first to fetch a chunk puts it in; a slower one takes what is there. */
    method Insert(idx: nat, data: seq<byte>) returns (kept: seq<byte>)
      requires Valid() && Start(o, idx) < |o.bytes| && data == ChunkOf(o, idx)
      modifies this
      ensures Valid() == true && kept == data && State() == Inserted(o, old(State()), idx, data)
    {
      InsertedOK(o, State(), idx, data);
      kept := data;
      if idx in table {
        lru := [table[idx]] + Without(lru, idx);
        kept := table[idx].data;
      } else {
        InsertNew(idx, data);
      }
    }

    /** Fetches a chunk; the last one is cut to the object's size. */
    method Fetch(idx: nat, faults: set<nat>) returns (data: Option<seq<byte>>)
      requires ObjectOK(o) && Start(o, idx) < |o.bytes|
      ensures data == if idx in faults then None else Some(ChunkOf(o, idx))
    {
      if idx in faults {
        return None;
      }
      StartIs(o, idx);
      var lo := idx * o.chunk;
      var length := if lo + o.chunk > |o.bytes| then |o.bytes| - lo else o.chunk;
      data := Some(o.bytes[lo..lo + length]);
    }

    method ChunkAt(idx: nat, faults: set<nat>) returns (data: Option<seq<byte>>)
      requires Valid() && Start(o, idx) < |o.bytes|
      modifies this
      ensures Valid() && data == if idx in faults && idx !in old(table) then None else Some(ChunkOf(o, idx))
      ensures State() == if data.None? then old(State()) else Inserted(o, old(State()), idx, ChunkOf(o, idx))
    {
      data := Lookup(idx);
      if data.None? {
        data := Fetch(idx, faults);
        if data.Some? {
          var kept := Insert(idx, data.value);
          data := Some(kept);
        }
      }
    }

    /** Copies what the next chunk has of the bytes before end. */
    method CopyChunk(p: array<byte>, at: nat, n: nat, off: nat, end: nat, faults: set<nat>, ghost was: seq<byte>)
      returns (m: nat, ok: bool)
      requires Valid() && Copied(p, was, at, n, o.bytes, off)
      requires off + n < end <= |o.bytes| && at + (end - off) <= p.Length
      modifies this, p
      ensures Valid() == Copied(p, was, at, m, o.bytes, off) == true && off + m <= end
      ensures if ok then n < m else m == n && faults != {}
    {
      var pos := off + n;
      var idx := pos / o.chunk;
      ShareIs(o, pos, end);
      var data := ChunkAt(idx, faults);
      if data.None? {
        return n, false;
      }
      var s := ShareAt(o, data.value, pos, end);
      CopyMore(p, was, at, n, s, o.bytes, off);
      m, ok := n + |s|, true;
    }

    /**
     Reads the object into len bytes of p from at on. Whatever is cached, the bytes are the object's; the end of the
     file is reported exactly when a read is short because the object ends, and a full read that ends on the last byte
     is no error.
     */
    method ReadAt(p: array<byte>, at: nat, len: nat, off: int, faults: set<nat>) returns (n: nat, result: Result)
      requires Valid() && at + len <= p.Length
      modifies this, p
      ensures Valid()
      ensures off < 0 ==> n == 0 && result.Negative? && p[..] == old(p[..])
      ensures off >= |o.bytes| ==> n == 0 && result.EndOfFile? && p[..] == old(p[..])
      ensures 0 <= off < |o.bytes| ==> n <= len && Copied(p, old(p[..]), at, n, o.bytes, off) && !result.Negative?
      ensures 0 <= off < |o.bytes| ==> (result.Full? <==> n == len)
      ensures 0 <= off < |o.bytes| ==> (result.EndOfFile? <==> n == |o.bytes| - off < len)
      ensures result.FetchFailed? ==> faults != {}
    {
      if off < 0 {
        return 0, Negative;
      }
      if off >= |o.bytes| {
        return 0, EndOfFile;
      }
      var end := Min(off + len, |o.bytes|);
      var ok := true;
      n := 0;
      while off + n < end
        invariant Valid() == true && Copied(p, old(p[..]), at, n, o.bytes, off) && off + n <= end
      {
        n, ok := CopyChunk(p, at, n, off, end, faults, old(p[..]));
        if !ok {
          return n, FetchFailed;
        }
      }
      result := if n < len then EndOfFile else Full;
    }
  }
}
