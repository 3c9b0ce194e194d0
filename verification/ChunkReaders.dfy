/** Many readers of one chunk cache. What one does under the lock is a step; fetches happen between steps. */
module ChunkReaders {
  import opened Bits
  import opened Streams
  import opened ChunkCache

  /** Before the lookup, fetching outside the lock, or holding what was fetched. */
  datatype Phase = Looking | Fetching | Holding(data: seq<byte>)

  /** A read of len bytes at off: what it has so far, and how it ended. */
  datatype Reader = Reader(off: int, len: nat, out: seq<byte>, phase: Phase, result: Option<Result>)

  datatype System = System(cache: Cache, readers: seq<Reader>)

  datatype Event = Look(i: nat) | FetchEnds(i: nat, ok: bool) | Keep(i: nat)

  /** Where a read ends. */
  function End(o: Object, r: Reader): int {
    if r.off + r.len > |o.bytes| then |o.bytes| else r.off + r.len
  }

  function Pos(r: Reader): int { r.off + |r.out| }

  /** A read still has bytes to get. */
  predicate Busy(o: Object, r: Reader) {
    r.result.None? && 0 <= r.off && Pos(r) < End(o, r)
  }

  /** A read at the head of its loop: over, or looking for its next chunk. */
  function Onward(o: Object, r: Reader): (s: Reader) {
    if Pos(r) < End(o, r) then r.(phase := Looking)
    else r.(phase := Looking, result := Some(if |r.out| < r.len then EndOfFile else Full))
  }

  function Begin(o: Object, off: int, len: nat): (r: Reader) {
    var r := Reader(off, len, [], Looking, None);
    if off < 0 then r.(result := Some(Negative))
    else if off >= |o.bytes| then r.(result := Some(EndOfFile))
    else Onward(o, r)
  }

  function Wanted(o: Object, r: Reader): nat
    requires ObjectOK(o) && Busy(o, r)
  {
    Pos(r) / o.chunk
  }

  /** The read copies its part of a chunk. */
  function Took(o: Object, r: Reader, data: seq<byte>): (s: Reader)
    requires ObjectOK(o) && Busy(o, r)
  {
    Onward(o, r.(out := r.out + ShareAt(o, data, Pos(r), End(o, r))))
  }

  function Apply(o: Object, sys: System, e: Event): (s: System)
    requires ObjectOK(o)
  {
    if e.i >= |sys.readers| || !Busy(o, sys.readers[e.i]) then sys
    else
      var r := sys.readers[e.i];
      var idx := Wanted(o, r);
      match e
      case Look(i) =>
        if !r.phase.Looking? then sys
        else if idx in sys.cache.table then
          System(Promoted(sys.cache, idx), sys.readers[i := Took(o, r, sys.cache.table[idx].data)])
        else sys.(readers := sys.readers[i := r.(phase := Fetching)])
      case FetchEnds(i, ok) =>
        if !r.phase.Fetching? || Start(o, idx) > |o.bytes| then sys
        else
          var s := if ok then r.(phase := Holding(ChunkOf(o, idx))) else r.(result := Some(FetchFailed));
          sys.(readers := sys.readers[i := s])
      case Keep(i) =>
        if !r.phase.Holding? then sys
        else
          var data := if idx in sys.cache.table then sys.cache.table[idx].data else r.phase.data;
          System(Inserted(o, sys.cache, idx, r.phase.data), sys.readers[i := Took(o, r, data)])
  }

  function Run(o: Object, readers: seq<Reader>, events: seq<Event>): (s: System)
    requires ObjectOK(o)
  {
    if events == [] then System(EMPTY, readers)
    else Apply(o, Run(o, readers, events[..|events| - 1]), events[|events| - 1])
  }

  // ----- what every interleaving keeps

  /** What a read has is the object's bytes from its offset on. */
  predicate OwnBytes(o: Object, r: Reader) {
    0 <= r.off && Pos(r) <= |o.bytes| && |r.out| <= r.len &&
        forall k | 0 <= k < |r.out| :: r.out[k] == o.bytes[r.off + k]
  }

  predicate ResultOK(o: Object, r: Reader) {
    match r.result
    case None => OwnBytes(o, r) && Busy(o, r)
    case Some(Full) => OwnBytes(o, r) && |r.out| == r.len
    case Some(EndOfFile) => (r.off >= |o.bytes| && r.out == []) ||
        (OwnBytes(o, r) && Pos(r) == |o.bytes| && |r.out| < r.len)
    case Some(Negative) => r.off < 0 && r.out == []
    case Some(FetchFailed) => OwnBytes(o, r) && Pos(r) < End(o, r)
  }

  predicate ReaderOK(o: Object, r: Reader)
    requires ObjectOK(o)
  {
    && ResultOK(o, r)
    && (Busy(o, r) && r.phase.Holding? ==>
          Start(o, Wanted(o, r)) < |o.bytes| && r.phase.data == ChunkOf(o, Wanted(o, r)))
  }

  predicate SystemOK(o: Object, sys: System)
    requires ObjectOK(o)
  {
    CacheOK(o, sys.cache) && forall i | 0 <= i < |sys.readers| :: ReaderOK(o, sys.readers[i])
  }

  /** More of the object's bytes, and perhaps the end. */
  lemma MoreOwn(o: Object, r: Reader, s: seq<byte>)
    requires ObjectOK(o) && ResultOK(o, r) && Busy(o, r) && 0 < |s| <= End(o, r) - Pos(r)
    requires forall i | 0 <= i < |s| :: s[i] == o.bytes[Pos(r) + i]
    ensures ResultOK(o, Onward(o, r.(out := r.out + s)))
  {
  }

  lemma TookOK(o: Object, r: Reader, data: seq<byte>)
    requires ObjectOK(o) && ReaderOK(o, r) && Busy(o, r)
    ensures Start(o, Wanted(o, r)) < |o.bytes|
    ensures data == ChunkOf(o, Wanted(o, r)) ==> ReaderOK(o, Took(o, r, data)) && |r.out| < |Took(o, r, data).out|
  {
    ShareIs(o, Pos(r), End(o, r));
    if data == ChunkOf(o, Wanted(o, r)) {
      MoreOwn(o, r, ShareAt(o, data, Pos(r), End(o, r)));
    }
  }

  lemma LookOK(o: Object, sys: System, i: nat)
    requires ObjectOK(o) && SystemOK(o, sys)
    ensures SystemOK(o, Apply(o, sys, Look(i)))
  {
    if i < |sys.readers| && Busy(o, sys.readers[i]) {
      var r := sys.readers[i];
      var idx := Wanted(o, r);
      if idx in sys.cache.table {
        PromotedOK(o, sys.cache, idx);
        TookOK(o, r, sys.cache.table[idx].data);
      }
    }
  }

  lemma FetchOK(o: Object, sys: System, i: nat, ok: bool)
    requires ObjectOK(o) && SystemOK(o, sys)
    ensures SystemOK(o, Apply(o, sys, FetchEnds(i, ok)))
  {
    if i < |sys.readers| && Busy(o, sys.readers[i]) {
      TookOK(o, sys.readers[i], []);
    }
  }

  lemma KeepOK(o: Object, sys: System, i: nat)
    requires ObjectOK(o) && SystemOK(o, sys)
    ensures SystemOK(o, Apply(o, sys, Keep(i)))
  {
    if i < |sys.readers| && Busy(o, sys.readers[i]) && sys.readers[i].phase.Holding? {
      var r := sys.readers[i];
      var idx := Wanted(o, r);
      InsertedOK(o, sys.cache, idx, r.phase.data);
      TookOK(o, r, ChunkOf(o, idx));
    }
  }

  /** The system still serves the reads asked for. */
  predicate SameReads(asked: seq<Reader>, readers: seq<Reader>) {
    && |asked| == |readers|
    && forall i | 0 <= i < |asked| :: asked[i].off == readers[i].off && asked[i].len == readers[i].len
  }

  lemma ApplyServes(o: Object, asked: seq<Reader>, sys: System, e: Event)
    requires ObjectOK(o) && SameReads(asked, sys.readers)
    ensures SameReads(asked, Apply(o, sys, e).readers)
  {
  }

  /**
   Whatever the interleaving, the cache stays consistent and every read has only the object's bytes and an exact end.
   */
  lemma {:induction false} RunOK(o: Object, readers: seq<Reader>, events: seq<Event>)
    requires ObjectOK(o) && forall i | 0 <= i < |readers| :: readers[i] == Begin(o, readers[i].off, readers[i].len)
    ensures SystemOK(o, Run(o, readers, events)) && SameReads(readers, Run(o, readers, events).readers)
  {
    if events == [] {
      forall i | 0 <= i < |readers| ensures ReaderOK(o, readers[i]) {
        assert readers[i] == Begin(o, readers[i].off, readers[i].len);
      }
    } else {
      var last := |events| - 1;
      RunOK(o, readers, events[..last]);
      var sys := Run(o, readers, events[..last]);
      ApplyServes(o, readers, sys, events[last]);
      match events[last]
      case Look(i) => LookOK(o, sys, i);
      case FetchEnds(i, ok) => FetchOK(o, sys, i, ok);
      case Keep(i) => KeepOK(o, sys, i);
    }
  }

  lemma FinishedRead(o: Object, r: Reader)
    requires ResultOK(o, r) && r.result.Some? && r.result != Some(FetchFailed)
    ensures r.result == Some(Negative) <==> r.off < 0
    ensures r.result == Some(Full) ==> r.off + r.len <= |o.bytes|
    ensures 0 <= r.off < |o.bytes| ==> (r.result == Some(EndOfFile) <==> |o.bytes| < r.off + r.len)
    ensures 0 <= r.off < |o.bytes| ==> r.out == o.bytes[r.off..End(o, r)]
  {
    if 0 <= r.off < |o.bytes| {
      assert |r.out| == End(o, r) - r.off;
    }
  }

  /**
   What a read comes to does not depend on the cache or on the other readers at all, unless a fetch of its own failed.
   */
  lemma ReadsAgree(o: Object, readers: seq<Reader>, events: seq<Event>, i: nat)
    requires ObjectOK(o) && i < |readers| &&
             forall j | 0 <= j < |readers| :: readers[j] == Begin(o, readers[j].off, readers[j].len)
    ensures |Run(o, readers, events).readers| == |readers|
    ensures var off, len, r := readers[i].off, readers[i].len, Run(o, readers, events).readers[i];
      r.result.Some? && r.result != Some(FetchFailed) && 0 <= off < |o.bytes| ==>
        && r.out == o.bytes[off..if off + len > |o.bytes| then |o.bytes| else off + len]
        && r.result == Some(if off + len > |o.bytes| then EndOfFile else Full)
  {
    RunOK(o, readers, events);
    var r := Run(o, readers, events).readers[i];
    if r.result.Some? && r.result != Some(FetchFailed) {
      FinishedRead(o, r);
    }
  }

  // ----- and they end

  /** The event is the next thing that reader i does. */
  predicate IsTurn(o: Object, sys: System, i: nat, e: Event) {
    && i < |sys.readers| && Busy(o, sys.readers[i]) && e.i == i
    && match sys.readers[i].phase
       case Looking => e.Look?
       case Fetching => e.FetchEnds?
       case Holding(_) => e.Keep?
  }

  /** At least as many turns as a read has left. */
  function Weight(o: Object, r: Reader): (w: nat) {
    if !Busy(o, r) then 0
    else 3 * (End(o, r) - Pos(r)) + if r.phase.Looking? then 2 else if r.phase.Fetching? then 1 else 0
  }

  lemma TookWeight(o: Object, r: Reader, data: seq<byte>)
    requires ObjectOK(o) && ReaderOK(o, r) && Busy(o, r)
    requires Start(o, Wanted(o, r)) < |o.bytes| && data == ChunkOf(o, Wanted(o, r))
    ensures Weight(o, Took(o, r, data)) < 3 * (End(o, r) - Pos(r))
  {
    ShareIs(o, Pos(r), End(o, r));
  }

  /** A turn of a reader's own brings it on, and nothing else changes it. */
  lemma TurnBrings(o: Object, sys: System, e: Event, i: nat)
    requires ObjectOK(o) && SystemOK(o, sys) && i < |sys.readers| && |Apply(o, sys, e).readers| == |sys.readers|
    ensures var r := Apply(o, sys, e).readers[i];
      if IsTurn(o, sys, i, e) then Weight(o, r) < Weight(o, sys.readers[i]) else r == sys.readers[i]
  {
    var r := sys.readers[i];
    if IsTurn(o, sys, i, e) {
      TookOK(o, r, []);
      var idx := Wanted(o, r);
      TookWeight(o, r, ChunkOf(o, idx));
    }
  }

  /** How many turns reader i has had. */
  function Turns(o: Object, readers: seq<Reader>, events: seq<Event>, i: nat): (n: nat)
    requires ObjectOK(o)
  {
    if events == [] then 0
    else
      var front, e := events[..|events| - 1], events[|events| - 1];
      Turns(o, readers, front, i) + if IsTurn(o, Run(o, readers, front), i, e) then 1 else 0
  }

  lemma {:induction false} TurnsCount(o: Object, readers: seq<Reader>, events: seq<Event>, i: nat)
    requires ObjectOK(o) && i < |readers| &&
             forall j | 0 <= j < |readers| :: readers[j] == Begin(o, readers[j].off, readers[j].len)
    ensures |Run(o, readers, events).readers| == |readers|
    ensures Turns(o, readers, events, i) + Weight(o, Run(o, readers, events).readers[i]) <= 3 * readers[i].len + 2
  {
    RunOK(o, readers, events);
    if events == [] {
      assert readers[i] == Begin(o, readers[i].off, readers[i].len);
    } else {
      var last := |events| - 1;
      TurnsCount(o, readers, events[..last], i);
      RunOK(o, readers, events[..last]);
      TurnBrings(o, Run(o, readers, events[..last]), events[last], i);
    }
  }

  /** Whatever the others do, a read is over by its turn number three times its length. */
  lemma ReadEnds(o: Object, readers: seq<Reader>, events: seq<Event>, i: nat)
    requires ObjectOK(o) && i < |readers| &&
             forall j | 0 <= j < |readers| :: readers[j] == Begin(o, readers[j].off, readers[j].len)
    requires Turns(o, readers, events, i) >= 3 * readers[i].len
    ensures |Run(o, readers, events).readers| == |readers| && Run(o, readers, events).readers[i].result.Some?
  {
    RunOK(o, readers, events);
    TurnsCount(o, readers, events, i);
    var r := Run(o, readers, events).readers[i];
    assert ReaderOK(o, r);
  }

  lemma FailsAfter(o: Object, sys: System, e: Event, i: nat)
    requires ObjectOK(o) && i < |sys.readers| && |Apply(o, sys, e).readers| == |sys.readers|
    requires sys.readers[i].result != Some(FetchFailed)
    ensures Apply(o, sys, e).readers[i].result == Some(FetchFailed) ==> e == FetchEnds(i, false)
  {
  }

  /** And it fails only by a fetch of its own that failed. */
  lemma {:induction false} FailsByOwn(o: Object, readers: seq<Reader>, events: seq<Event>, i: nat)
    requires ObjectOK(o) && i < |readers| &&
             forall j | 0 <= j < |readers| :: readers[j] == Begin(o, readers[j].off, readers[j].len)
    ensures |Run(o, readers, events).readers| == |readers|
    ensures Run(o, readers, events).readers[i].result == Some(FetchFailed) ==> FetchEnds(i, false) in events
  {
    RunOK(o, readers, events);
    if events == [] {
      assert readers[i] == Begin(o, readers[i].off, readers[i].len);
    } else {
      var last := |events| - 1;
      FailsByOwn(o, readers, events[..last], i);
      var sys := Run(o, readers, events[..last]);
      if sys.readers[i].result != Some(FetchFailed) {
        FailsAfter(o, sys, events[last], i);
      }
    }
  }
}
