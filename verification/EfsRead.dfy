/** Reading an EFS file: extents in order, holes between them, over the chunk cache of a disk that may be cut short. */
module EfsRead {
  import opened Bits
  import opened Streams
  import opened ChunkCache

  /** len blocks (of 512 bytes) of the file from block offset on are the disk's from block on. */
  datatype Extent = Extent(block: nat, len: nat, offset: nat)

  function First(e: Extent): nat { 512 * e.offset }

  /** One past the extent's last byte. */
  function Past(e: Extent): nat { 512 * (e.offset + e.len) }

  /** As the program sorts them, by offset, and those that hold anything do not overlap. */
  predicate Sorted(exts: seq<Extent>) {
    && (forall i, j | 0 <= i < j < |exts| :: exts[i].offset <= exts[j].offset)
    && (forall i, j | 0 <= i < j < |exts| && exts[i].len > 0 && exts[j].len > 0 ::
          exts[i].offset + exts[i].len <= exts[j].offset)
  }

  // ----- the file a byte at a time

  predicate Covers(e: Extent, pos: nat) { First(e) <= pos < Past(e) }

  /** The first extent from i on that holds a position, or none. */
  function Holder(exts: seq<Extent>, pos: nat, i: nat): (r: nat)
    requires i <= |exts|
    ensures i <= r <= |exts|
    ensures r < |exts| ==> Covers(exts[r], pos)
    ensures forall j | i <= j < r :: !Covers(exts[j], pos)
    decreases |exts| - i
  {
    if i == |exts| || Covers(exts[i], pos) then i else Holder(exts, pos, i + 1)
  }

  /** Where on the disk an extent holds a position of the file. */
  function Physical(e: Extent, base: nat, pos: nat): nat
    requires First(e) <= pos
  {
    512 * (base + e.block) + (pos - First(e))
  }

  /** The byte of the file at a position: the extent's, zero in a hole, nothing where the disk is cut short. */
  function ByteAt(exts: seq<Extent>, base: nat, disk: seq<byte>, pos: nat): (b: Option<byte>) {
    var i := Holder(exts, pos, 0);
    if i == |exts| then Some(0)
    else if Physical(exts[i], base, pos) < |disk| then Some(disk[Physical(exts[i], base, pos)])
    else None
  }

  /** In order, only one extent can hold a position. */
  lemma HolderIs(exts: seq<Extent>, pos: nat, i: nat)
    requires Sorted(exts) && i < |exts| && Covers(exts[i], pos)
    ensures Holder(exts, pos, 0) == i
  {
    var r := Holder(exts, pos, 0);
    assert r <= i;
  }

  /** The disk is so many blocks of 512 bytes, the last one perhaps cut short. */
  function DiskBlock(disk: seq<byte>, n: nat): (b: seq<byte>) {
    if |disk| <= 512 * n then [] else if |disk| <= 512 * n + 512 then disk[512 * n..] else disk[512 * n..512 * n + 512]
  }

  predicate HasBlock(e: Extent, n: nat) { e.offset <= n < e.offset + e.len }

  /**
   A byte in one of an extent's blocks is in the block of the disk that is as far from the partition's and the extent's
   first.
   */
  lemma ByteInBlock(exts: seq<Extent>, i: nat, base: nat, disk: seq<byte>, pos: nat)
    requires Sorted(exts) && i < |exts| && HasBlock(exts[i], pos / 512)
    ensures var b := DiskBlock(disk, base + exts[i].block + (pos / 512 - exts[i].offset));
      ByteAt(exts, base, disk, pos) == if pos % 512 < |b| then Some(b[pos % 512]) else None
  {
    assert pos == 512 * (pos / 512) + pos % 512;
    HolderIs(exts, pos, i);
  }

  /** And a byte of a block that no extent has is zero. */
  lemma ByteInHole(exts: seq<Extent>, base: nat, disk: seq<byte>, pos: nat)
    requires forall i | 0 <= i < |exts| :: !HasBlock(exts[i], pos / 512)
    ensures ByteAt(exts, base, disk, pos) == Some(0)
  {
    assert pos == 512 * (pos / 512) + pos % 512;
    var i := Holder(exts, pos, 0);
    assert i < |exts| ==> !HasBlock(exts[i], pos / 512);
  }

  /** What comes before a partition on the disk does not matter to the files in it. */
  lemma PartitionMoves(exts: seq<Extent>, base: nat, head: seq<byte>, part: seq<byte>, pos: nat)
    requires |head| == 512 * base
    ensures ByteAt(exts, base, head + part, pos) == ByteAt(exts, 0, part, pos)
  {
  }

  /** The extents before i lie before pos, or hold nothing. */
  predicate Behind(exts: seq<Extent>, i: nat, pos: nat) {
    i <= |exts| && forall j | 0 <= j < i :: exts[j].len == 0 || Past(exts[j]) <= pos
  }

  /** From pos on only extents from i on are needed, and those that hold anything end past it. */
  predicate Next(exts: seq<Extent>, i: nat, pos: nat) {
    Behind(exts, i, pos) && forall j | i <= j < |exts| && exts[j].len > 0 :: pos < Past(exts[j])
  }

  lemma NextAfter(exts: seq<Extent>, i: nat, pos: nat, to: nat)
    requires Sorted(exts) && i < |exts| && Next(exts, i, pos) && pos <= to
    requires (exts[i].len == 0 && to == pos) || to == Past(exts[i])
    ensures Next(exts, i + 1, to)
  {
  }

  /** Between the extents before i and extent i there is nothing. */
  lemma HoleIs(exts: seq<Extent>, pos: nat, i: nat)
    requires Sorted(exts) && Behind(exts, i, pos) && (i < |exts| ==> exts[i].len > 0 && pos < First(exts[i]))
    ensures Holder(exts, pos, 0) == |exts|
  {
    var r := Holder(exts, pos, 0);
    assert r < |exts| ==> Covers(exts[r], pos);
  }

  lemma HoleBytes(exts: seq<Extent>, i: nat, base: nat, disk: seq<byte>, from: nat, to: nat)
    requires Sorted(exts) && Behind(exts, i, from) && (i < |exts| ==> exts[i].len > 0 && to <= First(exts[i]))
    ensures forall pos: nat | from <= pos < to :: ByteAt(exts, base, disk, pos) == Some(0)
  {
    forall pos: nat | from <= pos < to ensures ByteAt(exts, base, disk, pos) == Some(0) {
      HoleIs(exts, pos, i);
    }
  }

  lemma ExtentBytes(exts: seq<Extent>, i: nat, base: nat, disk: seq<byte>, from: nat, to: nat)
    requires Sorted(exts) && i < |exts| && First(exts[i]) <= from && to <= Past(exts[i])
    ensures forall pos: nat | from <= pos < to :: ByteAt(exts, base, disk, pos) ==
              var at := Physical(exts[i], base, pos); if at < |disk| then Some(disk[at]) else None
  {
    forall pos: nat | from <= pos < to ensures Holder(exts, pos, 0) == i {
      HolderIs(exts, pos, i);
    }
  }

  // ----- the search

  function Half(lo: nat, hi: nat): (mid: nat)
    requires lo < hi
    ensures lo <= mid < hi
  {
    (lo + hi) / 2
  }

  /** Where halving ends up between lo and hi when it looks for an extent that ends past off. */
  function Halved(exts: seq<Extent>, off: nat, lo: nat, hi: nat): (r: nat)
    requires lo <= hi <= |exts|
    ensures lo <= r <= hi
    ensures r < hi ==> off < Past(exts[r])
    decreases hi - lo, exts
  {
    if lo == hi then lo
    else if Past(exts[Half(lo, hi)]) > off then Halved(exts, off, lo, Half(lo, hi))
    else Halved(exts, off, Half(lo, hi) + 1, hi)
  }

  /** The extents from the one the search finds on. */
  function Rest(exts: seq<Extent>, off: nat): (rest: seq<Extent>) {
    exts[Halved(exts, off, 0, |exts|)..]
  }

  /** Whatever it finds, the rest is in order and ends past off. */
  lemma RestNext(exts: seq<Extent>, off: nat)
    requires Sorted(exts)
    ensures Sorted(Rest(exts, off)) && Next(Rest(exts, off), 0, off)
  {
    var h, rest := Halved(exts, off, 0, |exts|), Rest(exts, off);
    forall j | 0 <= j < |rest| && rest[j].len > 0 ensures off < Past(rest[j]) {
      assert rest[j] == exts[h + j];
      assert j > 0 ==> exts[h].offset <= exts[h + j].offset;
    }
  }

  /** No extent before the one the search finds holds a position from off to to. */
  predicate Unhidden(exts: seq<Extent>, off: nat, to: nat) {
    forall pos: nat | off <= pos < to :: Misses(exts, Halved(exts, off, 0, |exts|), pos)
  }

  /** Extents before h do not hold a position. */
  predicate Misses(exts: seq<Extent>, h: nat, pos: nat)
    requires h <= |exts|
  {
    forall j | 0 <= j < h :: !Covers(exts[j], pos)
  }

  lemma {:induction false} HolderShifts(exts: seq<Extent>, h: nat, pos: nat, i: nat)
    requires h + i <= |exts|
    ensures Holder(exts, pos, h + i) == h + Holder(exts[h..], pos, i)
    decreases |exts| - i
  {
    if h + i < |exts| && !Covers(exts[h + i], pos) {
      HolderShifts(exts, h, pos, i + 1);
    }
  }

  lemma {:induction false} HolderSkips(exts: seq<Extent>, h: nat, pos: nat, i: nat)
    requires i <= h <= |exts| && Misses(exts, h, pos)
    ensures Holder(exts, pos, i) == Holder(exts, pos, h)
    decreases h - i
  {
    if i < h {
      HolderSkips(exts, h, pos, i + 1);
    }
  }

  /** What the rest says of a position: the same as all when those before miss it, and else that none holds it. */
  lemma RestHolder(exts: seq<Extent>, h: nat, pos: nat)
    requires Sorted(exts) && h <= |exts|
    ensures Misses(exts, h, pos) ==> Holder(exts, pos, 0) == h + Holder(exts[h..], pos, 0)
    ensures !Misses(exts, h, pos) ==> Holder(exts, pos, 0) < |exts| && Holder(exts[h..], pos, 0) == |exts| - h
  {
    HolderShifts(exts, h, pos, 0);
    if Misses(exts, h, pos) {
      HolderSkips(exts, h, pos, 0);
    } else {
      var j :| 0 <= j < h && Covers(exts[j], pos);
      HolderIs(exts, pos, j);
      var r := Holder(exts, pos, h);
      if r < |exts| {
        HolderIs(exts, pos, r);
      }
    }
  }

  lemma RestByte(exts: seq<Extent>, base: nat, disk: seq<byte>, h: nat, pos: nat)
    requires Sorted(exts) && h <= |exts|
    ensures Misses(exts, h, pos) ==> ByteAt(exts[h..], base, disk, pos) == ByteAt(exts, base, disk, pos)
    ensures !Misses(exts, h, pos) ==>
              ByteAt(exts[h..], base, disk, pos) == Some(0) && (disk == [] ==> ByteAt(exts, base, disk, pos) == None)
  {
    RestHolder(exts, h, pos);
  }

  /** Without a hidden extent the rest has the bytes of all. */
  lemma RestBytes(exts: seq<Extent>, base: nat, disk: seq<byte>, off: nat, to: nat)
    requires Sorted(exts) && Unhidden(exts, off, to)
    ensures forall pos: nat | off <= pos < to ::
            ByteAt(Rest(exts, off), base, disk, pos) == ByteAt(exts, base, disk, pos)
  {
    forall pos: nat | off <= pos < to
      ensures ByteAt(Rest(exts, off), base, disk, pos) == ByteAt(exts, base, disk, pos)
    {
      RestByte(exts, base, disk, Halved(exts, off, 0, |exts|), pos);
    }
  }

  /** The rest has the bytes of all the extents, whatever the disk, if and only if none of those before it is hidden. */
  lemma SearchExact(exts: seq<Extent>, base: nat, off: nat, to: nat)
    requires Sorted(exts)
    ensures Unhidden(exts, off, to) <==>
              forall disk: seq<byte>, pos: nat | off <= pos < to ::
                ByteAt(Rest(exts, off), base, disk, pos) == ByteAt(exts, base, disk, pos)
  {
    if Unhidden(exts, off, to) {
      forall disk: seq<byte>, pos: nat | off <= pos < to
        ensures ByteAt(Rest(exts, off), base, disk, pos) == ByteAt(exts, base, disk, pos)
      {
        RestBytes(exts, base, disk, off, to);
      }
    } else {
      var h := Halved(exts, off, 0, |exts|);
      var pos: nat :| off <= pos < to && !Misses(exts, h, pos);
      RestByte(exts, base, [], h, pos);
    }
  }

  /** When the ends rise with the offsets, the search finds the first extent that ends past off. */
  predicate EndsRise(exts: seq<Extent>) {
    forall i, j | 0 <= i < j < |exts| :: Past(exts[i]) <= Past(exts[j])
  }

  lemma {:induction false} HalvedIs(exts: seq<Extent>, off: nat, lo: nat, hi: nat)
    requires EndsRise(exts) && lo <= hi <= |exts| && (forall j | 0 <= j < lo :: Past(exts[j]) <= off)
    ensures forall j | 0 <= j < Halved(exts, off, lo, hi) :: Past(exts[j]) <= off
    decreases hi - lo
  {
    if lo < hi {
      var mid := Half(lo, hi);
      if Past(exts[mid]) > off {
        HalvedIs(exts, off, lo, mid);
      } else {
        HalvedIs(exts, off, mid + 1, hi);
      }
    }
  }

  /** Then no extent is hidden; that there are no empty extents is enough. */
  lemma NoneHidden(exts: seq<Extent>, off: nat, to: nat)
    requires Sorted(exts) && (EndsRise(exts) || NoneEmpty(exts))
    ensures Unhidden(exts, off, to)
  {
    if NoneEmpty(exts) {
      forall i, j | 0 <= i < j < |exts| ensures Past(exts[i]) <= Past(exts[j]) {
        assert Past(exts[i]) <= First(exts[j]);
      }
    }
    HalvedIs(exts, off, 0, |exts|);
  }

  predicate NoneEmpty(exts: seq<Extent>) {
    forall i | 0 <= i < |exts| :: exts[i].len > 0
  }

  method FirstPast(exts: seq<Extent>, off: nat) returns (i: nat)
    ensures i == Halved(exts, off, 0, |exts|)
  {
    var hi := |exts|;
    i := 0;
    while i < hi
      invariant i <= hi <= |exts| && Halved(exts, off, 0, |exts|) == Halved(exts, off, i, hi)
    {
      var mid := Half(i, hi);
      if Past(exts[mid]) > off {
        hi := mid;
      } else {
        i := mid + 1;
      }
    }
  }

  /** The first n bytes of p are the file's from off on, and the rest of p is as it was. */
  ghost predicate Reads(p: array<byte>, was: seq<byte>, n: nat, exts: seq<Extent>, base: nat, disk: seq<byte>, off: nat)
    reads p
  {
    && n <= p.Length == |was|
    && (forall k | 0 <= k < n :: ByteAt(exts, base, disk, off + k) == Some(p[k]))
    && (forall k | n <= k < p.Length :: p[k] == was[k])
  }

  /** A stretch of a hole. */
  method Clear(p: array<byte>, done: nat, count: nat, ghost was: seq<byte>,
               exts: seq<Extent>, i: nat, ghost base: nat, ghost disk: seq<byte>, ghost off: nat)
    requires Sorted(exts) && Behind(exts, i, off + done) && Reads(p, was, done, exts, base, disk, off)
    requires done + count <= p.Length && (i < |exts| ==> exts[i].len > 0 && off + done + count <= First(exts[i]))
    modifies p
    ensures Reads(p, was, done + count, exts, base, disk, off)
  {
    HoleBytes(exts, i, base, disk, off + done, off + done + count);
    forall k | done <= k < done + count {
      p[k] := 0;
    }
  }

  /** A stretch of extent i, through the cache. */
  method Extract(p: array<byte>, done: nat, count: nat, ghost was: seq<byte>,
                 exts: seq<Extent>, i: nat, base: nat, r: Chunks, off: nat, faults: set<nat>)
                     returns (n: nat, result: Result)
    requires r.Valid() && Sorted(exts) && i < |exts| && Reads(p, was, done, exts, base, r.o.bytes, off)
    requires 0 < count <= p.Length - done && First(exts[i]) <= off + done && off + done + count <= Past(exts[i])
    modifies p, r
    ensures r.Valid() && n <= count && Reads(p, was, done + n, exts, base, r.o.bytes, off)
    ensures result.Full? <==> n == count
    ensures result.EndOfFile? ==> ByteAt(exts, base, r.o.bytes, off + done + n) == None
    ensures result.Full? || result.EndOfFile? || (result.FetchFailed? && faults != {})
  {
    ghost var before, physical := p[..], Physical(exts[i], base, off + done);
    ExtentBytes(exts, i, base, r.o.bytes, off + done, off + done + count);
    n, result := r.ReadAt(p, done, count, Physical(exts[i], base, off + done), faults);
    if physical < |r.o.bytes| {
      CopiedReads(p, before, was, done, n, exts, i, base, r.o.bytes, off);
    }
  }

  lemma CopiedReads(p: array<byte>, before: seq<byte>, was: seq<byte>, done: nat, n: nat,
                    exts: seq<Extent>, i: nat, base: nat, disk: seq<byte>, off: nat)
    requires i < |exts| && First(exts[i]) <= off + done && done <= |before| == |was|
    requires Copied(p, before, done, n, disk, Physical(exts[i], base, off + done))
    requires forall k | 0 <= k < done :: ByteAt(exts, base, disk, off + k) == Some(before[k])
    requires forall k | done <= k < |before| :: before[k] == was[k]
    requires forall pos: nat | off + done <= pos < off + done + n :: ByteAt(exts, base, disk, pos) ==
               var at := Physical(exts[i], base, pos); if at < |disk| then Some(disk[at]) else None
    ensures Reads(p, was, done + n, exts, base, disk, off)
  {
  }

  /** Why a read stopped: it had to go on, the disk was cut short, or a fetch failed. */
  datatype Stop = Going | Cut | Broken

  /** One stretch: an empty extent passed over, part of a hole, or part of an extent. */
  method Stretch(exts: seq<Extent>, base: nat, r: Chunks, p: array<byte>, off: nat, want: nat, done: nat, at: nat,
                 faults: set<nat>, ghost was: seq<byte>)
    returns (n: nat, i: nat, stop: Stop)
    requires r.Valid() && Sorted(exts) && done < want <= p.Length && Next(exts, at, off + done)
    requires Reads(p, was, done, exts, base, r.o.bytes, off)
    modifies p, r
    ensures r.Valid() == true && done <= n <= want && Reads(p, was, n, exts, base, r.o.bytes, off) == true
    ensures stop.Going? ==> n == want || Next(exts, i, off + n)
    ensures stop.Going? ==> at <= i && (done < n || at < i <= |exts|)
    ensures stop.Cut? ==> n < want && ByteAt(exts, base, r.o.bytes, off + n) == None
    ensures stop.Broken? ==> n < want && faults != {}
  {
    n, i, stop := done, at, Going;
    var pos := off + done;
    if i < |exts| && exts[i].len == 0 {
      NextAfter(exts, i, pos, pos);
      i := i + 1;
    } else if i >= |exts| || pos < First(exts[i]) {
      n := ClearTo(exts, base, r.o.bytes, p, off, want, done, at, was);
    } else {
      n, i, stop := StretchOf(exts, base, r, p, off, want, done, at, faults, was);
    }
  }

  /** Part of a hole, up to the next extent. */
  method ClearTo(exts: seq<Extent>, ghost base: nat, ghost disk: seq<byte>, p: array<byte>, off: nat, want: nat,
                 done: nat, i: nat, ghost was: seq<byte>) returns (n: nat)
    requires Sorted(exts) && done < want <= p.Length && Next(exts, i, off + done)
    requires i < |exts| ==> exts[i].len > 0 && off + done < First(exts[i])
    requires Reads(p, was, done, exts, base, disk, off)
    modifies p
    ensures done < n <= want && Reads(p, was, n, exts, base, disk, off) == true && Next(exts, i, off + n)
  {
    var pos := off + done;
    var count := if i < |exts| then Min(want - done, First(exts[i]) - pos) else want - done;
    Clear(p, done, count, was, exts, i, base, disk, off);
    NextInHole(exts, i, pos, pos + count);
    n := done + count;
  }

  lemma NextInHole(exts: seq<Extent>, i: nat, pos: nat, to: nat)
    requires Sorted(exts) && Next(exts, i, pos) && pos <= to
    requires i < |exts| ==> exts[i].len > 0 && to <= First(exts[i])
    ensures Next(exts, i, to)
  {
  }

  /** Part of an extent that holds the position. */
  method StretchOf(exts: seq<Extent>, base: nat, r: Chunks, p: array<byte>, off: nat, want: nat, done: nat, at: nat,
                   faults: set<nat>, ghost was: seq<byte>)
    returns (n: nat, i: nat, stop: Stop)
    requires r.Valid() && Sorted(exts) && done < want <= p.Length && Next(exts, at, off + done)
    requires at < |exts| && exts[at].len > 0 && First(exts[at]) <= off + done
    requires Reads(p, was, done, exts, base, r.o.bytes, off)
    modifies p, r
    ensures r.Valid() == true && done <= n <= want && Reads(p, was, n, exts, base, r.o.bytes, off) == true
    ensures stop.Going? ==> at <= i && done < n && (n == want || Next(exts, i, off + n))
    ensures stop.Cut? ==> n < want && ByteAt(exts, base, r.o.bytes, off + n) == None
    ensures stop.Broken? ==> n < want && faults != {}
  {
    var pos := off + done;
    var count := Min(want - done, Past(exts[at]) - pos);
    var got, result := Extract(p, done, count, was, exts, at, base, r, off, faults);
    n, i, stop := done + got, at, Going;
    if !result.Full? {
      stop := if result.EndOfFile? then Cut else Broken;
    } else if pos + count == Past(exts[at]) {
      NextAfter(exts, at, pos, pos + count);
      i := at + 1;
    }
  }

  datatype Failure = BeforeStart | End | Device

  /**
   Reads the file into p: as many bytes as fit and the file and the disk have, each the one a byte at a time would give
   from the extents the search leaves, unless a fetch fails; and end of data exactly when p is not filled and none has
   failed. With no extent hidden from the search these are the file's bytes.
   */
  method ReadAt(exts: seq<Extent>, size: nat, base: nat, r: Chunks, p: array<byte>, off: int, faults: set<nat>)
    returns (n: nat, error: Option<Failure>)
    requires r.Valid() && Sorted(exts)
    modifies p, r
    ensures r.Valid()
    ensures off < 0 ==> n == 0 && error == Some(BeforeStart) && p[..] == old(p[..])
    ensures off >= size ==> n == 0 && error == Some(End) && p[..] == old(p[..])
    ensures 0 <= off < size ==>
              n <= Min(p.Length, size - off) && Reads(p, old(p[..]), n, Rest(exts, off), base, r.o.bytes, off) == true
    ensures 0 <= off < size && Unhidden(exts, off, off + n) ==>
              Reads(p, old(p[..]), n, exts, base, r.o.bytes, off) == true
    ensures 0 <= off < size ==> (error == None <==> n == p.Length)
    ensures 0 <= off < size && error == Some(End) && n < Min(p.Length, size - off) ==>
              ByteAt(Rest(exts, off), base, r.o.bytes, off + n) == None
    ensures off >= 0 ==> error != Some(BeforeStart)
    ensures error == Some(Device) ==> faults != {}
  {
    if off < 0 {
      return 0, Some(BeforeStart);
    }
    if off >= size {
      return 0, Some(End);
    }
    var i := FirstPast(exts, off);
    n, error := ReadFrom(exts, i, size, base, r, p, off, faults);
  }

  /** The read from the extent the search finds on. */
  method ReadFrom(exts: seq<Extent>, i: nat, size: nat, base: nat, r: Chunks, p: array<byte>, off: nat,
      faults: set<nat>)
    returns (n: nat, error: Option<Failure>)
    requires r.Valid() && Sorted(exts) && off < size && i == Halved(exts, off, 0, |exts|)
    modifies p, r
    ensures r.Valid() == true && Reads(p, old(p[..]), n, Rest(exts, off), base, r.o.bytes, off) == true
    ensures Unhidden(exts, off, off + n) ==> Reads(p, old(p[..]), n, exts, base, r.o.bytes, off) == true
    ensures n <= Min(p.Length, size - off)
    ensures error == None <==> n == p.Length
    ensures error == Some(End) && n < Min(p.Length, size - off) ==>
              ByteAt(Rest(exts, off), base, r.o.bytes, off + n) == None
    ensures error != Some(BeforeStart)
    ensures error == Some(Device) ==> faults != {}
  {
    RestNext(exts, off);
    n, error := ReadRest(exts[i..], size, base, r, p, off, faults);
    RestReads(p, old(p[..]), n, exts, base, r.o.bytes, off);
  }

  lemma RestReads(p: array<byte>, was: seq<byte>, n: nat, exts: seq<Extent>, base: nat, disk: seq<byte>, off: nat)
    requires Sorted(exts) && Reads(p, was, n, Rest(exts, off), base, disk, off)
    ensures Unhidden(exts, off, off + n) ==> Reads(p, was, n, exts, base, disk, off)
  {
    if Unhidden(exts, off, off + n) {
      RestBytes(exts, base, disk, off, off + n);
    }
  }

  /** The loop over the extents that are left. */
  method ReadRest(rest: seq<Extent>, size: nat, base: nat, r: Chunks, p: array<byte>, off: nat, faults: set<nat>)
    returns (n: nat, error: Option<Failure>)
    requires r.Valid() && Sorted(rest) && Next(rest, 0, off) && off < size
    modifies p, r
    ensures r.Valid() && n <= Min(p.Length, size - off) && Reads(p, old(p[..]), n, rest, base, r.o.bytes, off)
    ensures error == None <==> n == p.Length
    ensures error == Some(End) && n < Min(p.Length, size - off) ==> ByteAt(rest, base, r.o.bytes, off + n) == None
    ensures error != Some(BeforeStart)
    ensures error == Some(Device) ==> faults != {}
  {
    var want := Min(p.Length, size - off);
    var i, stop := 0, Going;
    n := 0;
    while n < want && stop.Going?
      invariant r.Valid() == true && n <= want && Reads(p, old(p[..]), n, rest, base, r.o.bytes, off) == true
      invariant !stop.Going? || n == want || Next(rest, i, off + n)
      invariant stop.Cut? ==> n < want && ByteAt(rest, base, r.o.bytes, off + n) == None
      invariant stop.Broken? ==> n < want && faults != {}
      decreases stop.Going?, want - n, |rest| - i
    {
      n, i, stop := Stretch(rest, base, r, p, off, want, n, i, faults, old(p[..]));
    }
    error := if stop.Broken? then Some(Device) else if n < p.Length then Some(End) else None;
  }

  /** A read from past all the extents the search leaves gives zero, whatever the disk holds. */
  method ReadNothing(exts: seq<Extent>, r: Chunks, p: array<byte>) returns (n: nat, error: Option<Failure>)
    requires r.Valid() && Sorted(exts) && Rest(exts, 0) == [] && p.Length == 1
    modifies p, r
    ensures n == 1 && error == None && p[0] == 0
  {
    ghost var disk, rest := r.o.bytes, Rest(exts, 0);
    assert ByteAt(rest, 0, disk, 0) == Some(0);
    n, error := ReadAt(exts, 512, 0, r, p, 0, {});
    match error {
      case None =>
      case Some(failure) => match failure { case BeforeStart => case End => case Device => }
    }
  }

  lemma SortedTwo(exts: seq<Extent>)
    requires |exts| == 2 && exts[0].offset <= exts[1].offset && exts[1].len == 0
    ensures Sorted(exts)
  {
    forall i, j | 0 <= i < j < |exts| ensures exts[i].offset <= exts[j].offset && exts[j].len == 0 {
      assert i == 0 && j == 1;
    }
  }

  lemma EmptyAfter(exts: seq<Extent>, off: nat)
    requires |exts| == 2 && Past(exts[1]) <= off
    ensures Rest(exts, off) == []
  {
    assert Half(0, 2) == 1;
    assert Halved(exts, off, 0, 2) == Halved(exts, off, 2, 2) == 2;
  }

  lemma FirstHolds(exts: seq<Extent>, base: nat, disk: seq<byte>, pos: nat)
    requires exts != [] && Covers(exts[0], pos) && Physical(exts[0], base, pos) < |disk|
    ensures ByteAt(exts, base, disk, pos) == Some(disk[Physical(exts[0], base, pos)])
  {
    assert Holder(exts, pos, 0) == 0;
  }

  /**
   With an empty extent sorted after one at its own offset, the search passes the one that holds the byte: a read gives
   zero, not what the disk holds there.
   */
  method EmptyHides(r: Chunks, p: array<byte>) returns (n: nat, error: Option<Failure>)
    requires r.Valid() && |r.o.bytes| > 0 && r.o.bytes[0] != 0 && p.Length == 1
    modifies p, r
    ensures n == 1 && error == None && p[0] == 0
    ensures ByteAt([Extent(0, 1, 0), Extent(0, 0, 0)], 0, r.o.bytes, 0) == Some(r.o.bytes[0])
  {
    var exts := [Extent(0, 1, 0), Extent(0, 0, 0)];
    EmptyAfter(exts, 0);
    FirstHolds(exts, 0, r.o.bytes, 0);
    SortedTwo(exts);
    n, error := ReadNothing(exts, r, p);
  }
}
