/** Which chunks the cache keeps: those used most recently, and as many of them as the budget allows. */
module ChunkRecency {
  import opened Bits
  import opened ChunkCache

  function Indices(lru: List): (s: seq<nat>) {
    seq(|lru|, i requires 0 <= i < |lru| => lru[i].idx)
  }

  function Dropped(s: seq<nat>, idx: nat): (r: seq<nat>) {
    if s == [] then [] else if s[0] == idx then Dropped(s[1..], idx) else [s[0]] + Dropped(s[1..], idx)
  }

  /** The chunks that were ever used, the one used last first. */
  function Recent(uses: seq<nat>): (s: seq<nat>) {
    if uses == [] then []
    else
      var last := uses[|uses| - 1];
      [last] + Dropped(Recent(uses[..|uses| - 1]), last)
  }

  /** What using a chunk makes of the cache: a hit moves to the front, a miss is fetched. */
  function Used(o: Object, c: Cache, idx: nat): (r: Cache)
    requires Start(o, idx) < |o.bytes|
  {
    Inserted(o, c, idx, ChunkOf(o, idx))
  }

  function After(o: Object, uses: seq<nat>): (c: Cache)
    requires forall i | 0 <= i < |uses| :: Start(o, uses[i]) < |o.bytes|
  {
    if uses == [] then EMPTY else Used(o, After(o, uses[..|uses| - 1]), uses[|uses| - 1])
  }

  /**
   Eviction keeps the front of the list; and of what it gives up not even the most recently used would have fit, beside
   the one chunk that is always kept.
   */
  lemma {:induction false} EvictedIs(o: Object, c: Cache)
    requires Linked(o, c)
    ensures Evicted(o, c).lru <= c.lru
    ensures var n := |Evicted(o, c).lru|; n < |c.lru| ==> 0 < o.budget < Total(c.lru[..n + 1])
    decreases |c.lru|
  {
    if !(o.budget <= 0 || c.resident <= o.budget || |c.lru| <= 1) {
      DropBackLinked(o, c);
      EvictedIs(o, DropBack(c));
      var n := |Evicted(o, DropBack(c)).lru|;
      if n + 1 < |c.lru| {
        assert c.lru[..|c.lru| - 1][..n + 1] == c.lru[..n + 1];
      } else {
        assert c.lru[..n + 1] == c.lru;
      }
    }
  }

  lemma {:induction false} AfterOK(o: Object, uses: seq<nat>)
    requires forall i | 0 <= i < |uses| :: Start(o, uses[i]) < |o.bytes|
    ensures CacheOK(o, After(o, uses))
  {
    if uses != [] {
      var last := uses[|uses| - 1];
      AfterOK(o, uses[..|uses| - 1]);
      InsertedOK(o, After(o, uses[..|uses| - 1]), last, ChunkOf(o, last));
    }
  }

  lemma {:induction false} TableHas(lru: List, idx: nat)
    ensures idx in Table(lru) <==> exists i :: 0 <= i < |lru| && lru[i].idx == idx
  {
    if lru != [] {
      TableHas(lru[1..], idx);
      if i :| 0 <= i < |lru| && lru[i].idx == idx {
        assert i > 0 ==> lru[1..][i - 1].idx == idx;
      }
    }
  }

  /** Taking a chunk out of the front part takes it out of both. */
  lemma {:induction false} WithoutDrops(lru: List, s: seq<nat>, idx: nat)
    requires OneEach(lru) && Indices(lru) <= s
    ensures Indices(Without(lru, idx)) <= Dropped(s, idx)
  {
    if lru != [] {
      assert s[0] == lru[0].idx && Indices(lru[1..]) == Indices(lru)[1..] <= s[1..];
      if lru[0].idx == idx {
        TableHas(lru[1..], idx);
        WithoutDrops(lru[1..], s[1..], idx);
        NothingToTake(lru[1..], idx);
      } else {
        WithoutDrops(lru[1..], s[1..], idx);
        assert Indices(Without(lru, idx)) == [s[0]] + Indices(Without(lru[1..], idx));
      }
    }
  }

  lemma {:induction false} NothingToTake(lru: List, idx: nat)
    requires idx !in Table(lru)
    ensures Without(lru, idx) == lru
  {
    if lru != [] {
      NothingToTake(lru[1..], idx);
    }
  }

  lemma FrontIndices(a: List, b: List)
    requires a <= b
    ensures Indices(a) <= Indices(b)
  {
  }

  lemma PushedIndices(c: Cache, k: Chunk)
    ensures Indices(Pushed(c, k).lru) == [k.idx] + Indices(c.lru)
  {
  }

  lemma PromotedIndices(c: Cache, idx: nat)
    requires idx in c.table && c.table[idx].idx == idx
    ensures Indices(Promoted(c, idx).lru) == [idx] + Indices(Without(c.lru, idx))
  {
  }

  lemma InsertedIndices(o: Object, c: Cache, k: Chunk)
    requires CacheOK(o, c) && k.idx !in c.table && Start(o, k.idx) < |o.bytes| && k.data == ChunkOf(o, k.idx)
    ensures Indices(Evicted(o, Pushed(c, k)).lru) <= [k.idx] + Indices(c.lru)
  {
    PushedLinked(o, c, k);
    EvictedIs(o, Pushed(c, k));
    FrontIndices(Evicted(o, Pushed(c, k)).lru, Pushed(c, k).lru);
    PushedIndices(c, k);
  }

  lemma Headed(idx: nat, a: seq<nat>, b: seq<nat>)
    requires a <= b
    ensures [idx] + a <= [idx] + b
  {
  }

  lemma PrefixTrans(a: seq<nat>, b: seq<nat>, c: seq<nat>)
    requires a <= b <= c
    ensures a <= c
  {
  }

  lemma UsedRecent(o: Object, c: Cache, idx: nat, s: seq<nat>)
    requires CacheOK(o, c) && Start(o, idx) < |o.bytes| && Indices(c.lru) <= s
    ensures Indices(Used(o, c, idx).lru) <= [idx] + Dropped(s, idx)
  {
    WithoutDrops(c.lru, s, idx);
    Headed(idx, Indices(Without(c.lru, idx)), Dropped(s, idx));
    if idx in c.table {
      PromotedIndices(c, idx);
    } else {
      NothingToTake(c.lru, idx);
      InsertedIndices(o, c, Chunk(idx, ChunkOf(o, idx)));
      PrefixTrans(Indices(Used(o, c, idx).lru), [idx] + Indices(c.lru), [idx] + Dropped(s, idx));
    }
  }

  /** However it is used, the cache keeps the chunks used last, in that order. */
  lemma {:induction false} KeepsRecent(o: Object, uses: seq<nat>)
    requires forall i | 0 <= i < |uses| :: Start(o, uses[i]) < |o.bytes|
    ensures Indices(After(o, uses).lru) <= Recent(uses)
  {
    if uses != [] {
      var front, last := uses[..|uses| - 1], uses[|uses| - 1];
      AfterOK(o, front);
      KeepsRecent(o, front);
      UsedRecent(o, After(o, front), last, Recent(front));
    }
  }
}
