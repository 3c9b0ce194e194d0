/** What the writer compresses, the decoder gives back. */
module LzwRoundTrip {
  import opened Bits
  import opened Streams
  import opened LzwDecoder
  import opened LzwRuns
  import opened LzwWriter
  import opened LzwReader

  // ----- bits and bytes

  lemma {:induction false} SliceBit(bits: seq<nat>, off: nat, n: nat, k: nat)
    requires off + n <= |bits| && k < n && forall i | 0 <= i < |bits| :: bits[i] < 2
    ensures Bit(Slice(bits, off, n), k) == bits[off + k]
    decreases n
  {
    var v, rest := Slice(bits, off, n), Slice(bits, off + 1, n - 1);
    assert v / 2 == rest && v % 2 == bits[off];
    if k > 0 {
      SliceBit(bits, off + 1, n - 1, k - 1);
      BitHalf(v, k - 1);
    }
  }

  /** The digits of a number read back as the number. */
  lemma {:induction false} SliceIs(bits: seq<nat>, off: nat, v: nat, n: nat)
    requires off + n <= |bits| && v < Pow2(n) && forall i | 0 <= i < n :: bits[off + i] == Bit(v, i)
    ensures Slice(bits, off, n) == v
    decreases n
  {
    if n > 0 {
      forall i | 0 <= i < n - 1 ensures bits[off + 1 + i] == Bit(v / 2, i) {
        BitHalf(v, i);
        assert bits[off + (i + 1)] == Bit(v, i + 1);
      }
      SliceIs(bits, off + 1, v / 2, n - 1);
      assert bits[off + 0] == Bit(v, 0) == v % 2;
    }
  }

  lemma OctetBit(bits: seq<nat>, at: nat, r: nat)
    requires r < 8 && forall i | 0 <= i < |bits| :: bits[i] < 2
    ensures Bit(Octet(bits, at), r) == if at + r < |bits| then bits[at + r] else 0
  {
    SliceBit(Eight(bits, at), 0, 8, r);
  }

  /** The bits of a group read back, whatever stands behind it. */
  lemma GroupBit(codes: seq<Sent>, last: bool, tail: seq<byte>, j: nat)
    requires codes != [] && j < 8 * |GroupBytes(codes, last)|
    ensures var bits := CodeBits(codes);
      BitsOf(GroupBytes(codes, last) + tail)[j] == if j < |bits| then bits[j] else 0
  {
    var bits, buf := CodeBits(codes), GroupBytes(codes, last) + tail;
    var at, r := j / 8, j % 8;
    assert buf[at] == GroupBytes(codes, last)[at] == Octet(bits, 8 * at);
    BitOfByte(buf, at, r);
    OctetBit(bits, 8 * at, r);
  }

  // ----- a group

  predicate Alike(codes: seq<Sent>, w: nat) {
    forall i | 0 <= i < |codes| :: codes[i].width == w && codes[i].code < Pow2(w)
  }

  lemma {:induction false} CodeBitsLength(codes: seq<Sent>, w: nat)
    requires Alike(codes, w)
    ensures |CodeBits(codes)| == |codes| * w
  {
    if codes != [] {
      var front := codes[..|codes| - 1];
      CodeBitsLength(front, w);
      assert (|codes| - 1) * w + w == |codes| * w;
    }
  }

  lemma {:induction false} CodeBitsAt(codes: seq<Sent>, w: nat, n: nat, off: nat, j: nat)
    requires Alike(codes, w) && n < |codes| && off == n * w && j < w
    ensures off + w <= |CodeBits(codes)| && CodeBits(codes)[off + j] == Bit(codes[n].code, j)
  {
    var front := codes[..|codes| - 1];
    CodeBitsLength(front, w);
    if n < |front| {
      CodeBitsAt(front, w, n, off, j);
    }
  }

  /** From bit off on the codes here are to be read, and behind them a new group is needed. */
  predicate Holds(bits: seq<nat>, off: nat, size: int, w: nat, here: seq<Sent>, later: seq<Sent>, block: bool)
    decreases |here|
  {
    if here == [] then off >= size || (later != [] && later[0].width != w)
    else
      && off < size && off + w <= |bits| && here[0].width == w && Slice(bits, off, w) == here[0].code
      && if block && here[0].code == 256 then here[1..] == []
         else Holds(bits, off + w, size, w, here[1..], later, block)
  }

  /** A group ends when it is full, with the stream, before another width, or with a clear code. */
  predicate GroupOK(codes: seq<Sent>, later: seq<Sent>, block: bool, w: nat) {
    && 0 < |codes| <= 8 && 9 <= w <= 16 && Alike(codes, w)
    && (forall i | 0 <= i < |codes| - 1 :: !Clearing(codes, i, block))
    && (|codes| == 8 || later == [] || later[0].width != w || Clearing(codes, |codes| - 1, block))
  }

  predicate Clearing(codes: seq<Sent>, i: nat, block: bool)
    requires i < |codes|
  {
    block && codes[i].code == 256
  }

  lemma GroupRoom(codes: seq<Sent>, later: seq<Sent>, block: bool, w: nat)
    requires GroupOK(codes, later, block, w)
    ensures var bits, n := |codes| * w, |GroupBytes(codes, later == [])|;
      |CodeBits(codes)| == bits && 0 < n <= w && n == GroupSize(bits, w, later == []) && bits <= 8 * n
      && (later == [] || |codes| == 8 ==> 8 * n - w < bits - 1)
  {
    CodeBitsLength(codes, w);
    Products(|codes|, w);
  }

  lemma Products(n: nat, w: nat)
    requires 0 < n <= 8 && 9 <= w
    ensures w <= n * w <= 8 * w && (n == 8 ==> n * w == 8 * w)
  {
  }

  /** A code of the group, as the reader cuts it out. */
  lemma CodeSliced(codes: seq<Sent>, later: seq<Sent>, block: bool, w: nat, tail: seq<byte>, i: nat, off: nat)
    requires GroupOK(codes, later, block, w) && i < |codes| && off == i * w
    ensures off + w <= |CodeBits(codes)| <= 8 * |GroupBytes(codes, later == [])|
    ensures Slice(BitsOf(GroupBytes(codes, later == []) + tail), off, w) == codes[i].code
  {
    var last := later == [];
    var bits := BitsOf(GroupBytes(codes, last) + tail);
    GroupRoom(codes, later, block, w);
    CodeBitsAt(codes, w, i, off, 0);
    forall j | 0 <= j < w ensures bits[off + j] == Bit(codes[i].code, j) {
      CodeBitsAt(codes, w, i, off, j);
      GroupBit(codes, last, tail, off + j);
    }
    SliceIs(bits, off, codes[i].code, w);
  }

  /** Code i of a group is there to be read. */
  predicate CodeIn(bits: seq<nat>, codes: seq<Sent>, w: nat, i: nat, size: int)
    requires i < |codes|
  {
    i * w < size && i * w + w <= |bits| && Slice(bits, i * w, w) == codes[i].code
  }

  predicate AllIn(bits: seq<nat>, codes: seq<Sent>, w: nat, size: int) {
    forall k | 0 <= k < |codes| :: CodeIn(bits, codes, w, k, size)
  }

  /** With all of a group's codes there, and a new group needed behind them, the group is to be read as they are. */
  lemma {:induction false} CodesHold(bits: seq<nat>, size: int, codes: seq<Sent>, later: seq<Sent>, block: bool, w: nat,
      i: nat, off: nat)
    requires GroupOK(codes, later, block, w) == true && i <= |codes| && off == i * w
    requires AllIn(bits, codes, w, size) == true
    requires |codes| == 8 || later == [] ==> size <= |codes| * w
    requires i == |codes| ==> !Clearing(codes, i - 1, block)
    ensures Holds(bits, off, size, w, codes[i..], later, block) == true
    decreases |codes| - i
  {
    if i < |codes| {
      assert CodeIn(bits, codes, w, i, size);
      assert codes[i..][0] == codes[i] && codes[i..][1..] == codes[i + 1..];
      if !Clearing(codes, i, block) {
        NextOffset(i, w);
        CodesHold(bits, size, codes, later, block, w, i + 1, off + w);
      }
    }
  }

  lemma GroupRead(bits: seq<nat>, size: int, codes: seq<Sent>, later: seq<Sent>, block: bool, w: nat)
    requires GroupOK(codes, later, block, w) == true && AllIn(bits, codes, w, size) == true
    requires |codes| == 8 || later == [] ==> size <= |codes| * w
    ensures Holds(bits, 0, size, w, codes, later, block) == true
  {
    CodesHold(bits, size, codes, later, block, w, 0, 0);
    assert codes[0..] == codes;
  }

  lemma NextOffset(i: nat, w: nat)
    ensures i * w + w == (i + 1) * w
  {
  }

  lemma CodeThere(codes: seq<Sent>, later: seq<Sent>, block: bool, w: nat, tail: seq<byte>, group: seq<byte>, k: nat)
    requires GroupOK(codes, later, block, w) && k < |codes| && group == GroupBytes(codes, later == [])
    ensures CodeIn(BitsOf(group + tail), codes, w, k, 8 * |group| - (w - 1))
  {
    GroupRoom(codes, later, block, w);
    CodeSliced(codes, later, block, w, tail, k, k * w);
  }

  lemma AllThere(codes: seq<Sent>, later: seq<Sent>, block: bool, w: nat, tail: seq<byte>, group: seq<byte>,
      bits: seq<nat>, size: int)
    requires GroupOK(codes, later, block, w) == true && group == GroupBytes(codes, later == [])
    requires bits == BitsOf(group + tail) && size == 8 * |group| - (w - 1)
    ensures AllIn(bits, codes, w, size) == true
    ensures |codes| == 8 || later == [] ==> size <= |codes| * w
  {
    GroupRoom(codes, later, block, w);
    forall k | 0 <= k < |codes| ensures CodeIn(bits, codes, w, k, size) {
      CodeThere(codes, later, block, w, tail, group, k);
    }
  }

  lemma GroupHolds(codes: seq<Sent>, later: seq<Sent>, block: bool, w: nat, tail: seq<byte>, group: seq<byte>,
      bits: seq<nat>, size: int)
    requires GroupOK(codes, later, block, w) == true && group == GroupBytes(codes, later == [])
    requires bits == BitsOf(group + tail) && size == 8 * |group| - (w - 1)
    ensures Holds(bits, 0, size, w, codes, later, block) == true
  {
    AllThere(codes, later, block, w, tail, group, bits, size);
    GroupRead(bits, size, codes, later, block, w);
  }

  predicate SentOK(sent: seq<Sent>) {
    forall i | 0 <= i < |sent| :: 9 <= sent[i].width <= 16 && sent[i].code < Pow2(sent[i].width)
  }

  lemma {:induction false} SameWidth(sent: seq<Sent>, block: bool, n: nat)
    requires 0 < n <= |sent| && forall j | 0 <= j < n - 1 :: GoesOn(sent, block, j)
    ensures forall j | 0 <= j < n :: sent[j].width == sent[0].width
  {
    if n > 1 {
      SameWidth(sent, block, n - 1);
      assert GoesOn(sent, block, n - 2);
    }
  }

  lemma FirstGroup(sent: seq<Sent>, block: bool) returns (codes: seq<Sent>, later: seq<Sent>)
    requires sent != [] && SentOK(sent)
    ensures sent == codes + later && codes != [] && codes[0] == sent[0]
    ensures GroupOK(codes, later, block, sent[0].width)
    ensures Pack(sent, block) == GroupBytes(codes, later == []) + Pack(later, block)
  {
    var n := GroupLen(sent, block, 0);
    codes, later := sent[..n], sent[n..];
    SameWidth(sent, block, n);
    forall i | 0 <= i < n - 1 ensures !Clearing(codes, i, block) {
      assert GoesOn(sent, block, i);
    }
    assert !GoesOn(sent, block, n - 1);
    assert later != [] ==> later[0] == sent[n];
  }

  // ----- the cursor

  /** What the cursor has left in its group is here, and the input behind it is later. */
  predicate Serves(c: Cursor, here: seq<Sent>, later: seq<Sent>, block: bool) {
    && c.rest == Pack(later, block)
    && if c.cleared then here == [] else Holds(BitsOf(c.group), c.off, c.size, c.width, here, later, block)
  }

  /** A group with all of the input behind it is taken whole; a short one only when nothing is behind it. */
  lemma TakesWhole(c: Cursor, w: nat, group: seq<byte>, rest: seq<byte>)
    requires INIT_BITS <= w <= BITS && |c.group| == BITS && c.rest == group + rest
    requires |group| <= w && (|group| < w ==> rest == [])
    ensures TakeGroup(c, w)
            == Cursor(w, false, group + c.group[|group|..], 0, 8 * |group| - (w - 1), rest, c.faulty)
  {
    assert c.rest[..|group|] == group && c.rest[|group|..] == rest;
  }

  /** The next group of a stream is the writer's. */
  lemma GroupTaken(c: Cursor, w: nat, codes: seq<Sent>, later: seq<Sent>, block: bool)
    requires |c.group| == BITS && GroupOK(codes, later, block, w)
    requires c.rest == GroupBytes(codes, later == []) + Pack(later, block)
    ensures Serves(TakeGroup(c, w), codes, later, block)
  {
    var group := GroupBytes(codes, later == []);
    GroupRoom(codes, later, block, w);
    var tail := c.group[|group|..];
    GroupHolds(codes, later, block, w, tail, group, BitsOf(group + tail), 8 * |group| - (w - 1));
    TakesWhole(c, w, group, Pack(later, block));
  }

  /** With nothing left in the group and more to come, the next group is taken, in the width of its first code. */
  lemma TakesNext(c: Cursor, maxBits: nat, size: nat, later: seq<Sent>, block: bool)
    requires 12 <= maxBits <= BITS && CursorOK(c, maxBits) && size <= Pow2(maxBits) && Served(size, c)
    requires Serves(c, [], later, block) && !c.faulty && c.rest != []
    requires later != [] && Least(later[0].width, size, maxBits)
    ensures later[0].width == NextWidth(c, maxBits, size)
    ensures ReadyGroup(c, maxBits, size) == Ready(TakeGroup(c, later[0].width))
  {
    ReadyWidth(c, maxBits, size);
    LeastUnique(later[0].width, NextWidth(c, maxBits, size), size, maxBits);
  }

  /** A code left in the group is there to be read: its width still serves. */
  lemma StaysInGroup(c: Cursor, maxBits: nat, size: nat, here: seq<Sent>, later: seq<Sent>, block: bool)
    requires 12 <= maxBits <= BITS && CursorOK(c, maxBits) && size <= Pow2(maxBits)
    requires Serves(c, here, later, block) && here != [] && Least(here[0].width, size, maxBits)
    ensures ReadyGroup(c, maxBits, size) == Ready(c) && !c.cleared
  {
  }

  /** A cursor that is to serve another code does so from its group, or from the next one. */
  lemma ReadyServes(c: Cursor, maxBits: nat, size: nat, here: seq<Sent>, later: seq<Sent>, block: bool)
    returns (h: seq<Sent>, l: seq<Sent>)
    requires 12 <= maxBits <= BITS && CursorOK(c, maxBits) && size <= Pow2(maxBits) && Served(size, c)
    requires !c.faulty && Serves(c, here, later, block) && SentOK(here + later) && here + later != []
    requires Least((here + later)[0].width, size, maxBits)
    ensures ReadyGroup(c, maxBits, size).Ready? && h != [] && h + l == here + later
    ensures Serves(ReadyGroup(c, maxBits, size).cursor, h, l, block)
    ensures !ReadyGroup(c, maxBits, size).cursor.cleared && !ReadyGroup(c, maxBits, size).cursor.faulty
  {
    if here == [] {
      assert here + later == later;
      h, l := FirstGroup(later, block);
      var w := later[0].width;
      GroupRoom(h, l, block, w);
      TakesNext(c, maxBits, size, later, block);
      GroupTaken(c, w, h, l, block);
    } else {
      h, l := here, later;
      assert (here + later)[0] == here[0];
      StaysInGroup(c, maxBits, size, here, later, block);
    }
  }

  function Cleared(c: Cursor, clearing: bool): Cursor {
    if clearing then c.(cleared := true) else c
  }

  /** A code that is served is cut out of the group, and the others are still to be. */
  lemma CodeServed(c: Cursor, h: seq<Sent>, l: seq<Sent>, block: bool)
    requires h != [] && !c.cleared && Serves(c, h, l, block) && c.off + c.width <= 8 * |c.group|
    ensures Slice(BitsOf(c.group), c.off, c.width) == h[0].code
    ensures Serves(Cleared(c.(off := c.off + c.width), block && h[0].code == 256), h[1..], l, block) == true
  {
  }

  lemma FrontOf(h: seq<Sent>, l: seq<Sent>, all: seq<Sent>)
    requires h != [] && h + l == all
    ensures all != [] && all[0] == h[0] && all[1..] == h[1..] + l
  {
  }

  lemma CodeOfGroup(c: Cursor, maxBits: nat, size: nat, ready: Cursor)
    requires 12 <= maxBits <= BITS && CursorOK(c, maxBits) && size <= Pow2(maxBits)
    requires ReadyGroup(c, maxBits, size) == Ready(ready)
    ensures ready.off + ready.width <= 8 * |ready.group|
    ensures NextCode(c, maxBits, size)
         == Code(Slice(BitsOf(ready.group), ready.off, ready.width), ready.(off := ready.off + ready.width))
  {
  }

  /** The next code is the writer's. */
  lemma NextServes(c: Cursor, maxBits: nat, size: nat, here: seq<Sent>, later: seq<Sent>, block: bool)
    returns (h: seq<Sent>, l: seq<Sent>)
    requires 12 <= maxBits <= BITS && CursorOK(c, maxBits) && size <= Pow2(maxBits) && Served(size, c)
    requires !c.faulty && Serves(c, here, later, block) && SentOK(here + later) && here + later != []
    requires Least((here + later)[0].width, size, maxBits)
    ensures h + l == (here + later)[1..]
    ensures var next := NextCode(c, maxBits, size);
      && next.Code? && next.code == (here + later)[0].code && !next.after.faulty
      && Serves(Cleared(next.after, block && next.code == 256), h, l, block) == true
  {
    var g;
    g, l := ReadyServes(c, maxBits, size, here, later, block);
    var ready := ReadyGroup(c, maxBits, size).cursor;
    FrontOf(g, l, here + later);
    CodeOfGroup(c, maxBits, size, ready);
    CodeServed(ready, g, l, block);
    h := g[1..];
  }

  // ----- the dictionaries

  /** The decoder's table is the writer's, but for the entry whose last byte the next string will show. */
  predicate Agree(t: Dictionary, table: seq<seq<byte>>, text: seq<byte>)
    requires text != []
  {
    && (t.prev == [] ==> |t.table| <= 257)
    && table == if t.prev != [] && |t.table| < Pow2(t.maxBits) then t.table + [t.prev + [text[0]]] else t.table
  }

  lemma LeastWidth(n: nat, m: nat, maxBits: nat)
    requires 9 <= maxBits && n <= Pow2(maxBits)
    requires m <= n <= m + 1 && (m == n ==> n == Pow2(maxBits) || n <= 257)
    ensures Least(Width(n, maxBits), m, maxBits)
  {
    var w := Width(n, maxBits);
    NineBits(9);
    if w < maxBits {
      Pow2Monotone(9, w);
      Pow2Monotone(w + 1, maxBits);
    }
  }

  lemma WidthAgrees(t: Dictionary, table: seq<seq<byte>>, text: seq<byte>)
    requires DictionaryOK(t) && text != [] && Agree(t, table, text) && |table| <= Pow2(t.maxBits)
    ensures Least(Width(|table|, t.maxBits), |t.table|, t.maxBits)
  {
    LeastWidth(|table|, |t.table|, t.maxBits);
  }

  /** The decoder knows the string of the code sent, be it the entry not finished, and learns what the writer added. */
  lemma PhraseLearnt(t: Dictionary, table: seq<seq<byte>>, text: seq<byte>, k: nat)
    requires DictionaryOK(t) && text != [] && Agree(t, table, text)
    requires k < |table| && table[k] != [] && table[k] <= text
    ensures StringOf(t, k) == table[k]
    ensures var rest := text[|table[k]|..];
      rest != [] ==> Agree(Learn(t, table[k]), Grown(table, table[k], rest, t.maxBits), rest)
  {
    assert table[k][0] == text[0];
    if k == |t.table| {
      assert table[k] == t.prev + [text[0]];
      assert t.prev[0] == table[k][0];
    }
  }

  lemma FreshAgrees(block: bool, maxBits: nat, text: seq<byte>)
    requires 12 <= maxBits <= BITS && text != []
    ensures Agree(Fresh(block, maxBits), Literals(block), text)
    ensures RoomOK(Literals(block), block, maxBits)
  {
    RoomAtFirst(block, maxBits);
  }

  lemma GrownOK(table: seq<seq<byte>>, s: seq<byte>, rest: seq<byte>, block: bool, maxBits: nat)
    requires RoomOK(table, block, maxBits)
    ensures RoomOK(Grown(table, s, rest, maxBits), block, maxBits)
  {
  }

  /** Codes are sent in widths that hold them. */
  lemma {:induction false} CodesOK(table: seq<seq<byte>>, text: seq<byte>, block: bool, maxBits: nat, clears: set<nat>)
    requires RoomOK(table, block, maxBits) && RoomOK(Literals(block), block, maxBits) && maxBits <= 16
    ensures SentOK(Codes(table, text, block, maxBits, clears))
    decreases |text|, 1
  {
    if text != [] {
      PhraseOK(if Clears(block, clears, |text|) then Literals(block) else table, text, block, maxBits, clears);
    }
  }

  lemma {:induction false} PhraseOK(table: seq<seq<byte>>, text: seq<byte>, block: bool, maxBits: nat, clears: set<nat>)
    requires RoomOK(table, block, maxBits) && RoomOK(Literals(block), block, maxBits) && maxBits <= 16 && text != []
    ensures SentOK(Phrase(table, text, block, maxBits, clears))
    decreases |text|, 0
  {
    var k := Longest(table, text, |table|);
    var rest := text[|table[k]|..];
    CodesOK(Grown(table, table[k], rest, maxBits), rest, block, maxBits, clears);
  }

  // ----- the round trip

  /** The decoder reads one code of the writer's as the string it stands for. */
  lemma PhraseRead(t: Dictionary, c: Cursor, table: seq<seq<byte>>, text: seq<byte>, clears: set<nat>,
      here: seq<Sent>, later: seq<Sent>)
    returns (s: seq<byte>, grown: seq<seq<byte>>, after: Cursor, h: seq<Sent>, l: seq<Sent>)
    requires DictionaryOK(t) && CursorOK(c, t.maxBits) && Served(|t.table|, c) && !c.faulty && text != []
    requires RoomOK(table, t.block, t.maxBits) && RoomOK(Literals(t.block), t.block, t.maxBits)
    requires Agree(t, table, text) && Serves(c, here, later, t.block)
    requires here + later == Phrase(table, text, t.block, t.maxBits, clears)
    ensures s != [] && s <= text && CursorOK(after, t.maxBits) && !after.faulty
    ensures Run(t, c) == Prepend(s, Run(Learn(t, s), after)) && Served(|Learn(t, s).table|, after)
    ensures |s| < |text| ==> Agree(Learn(t, s), grown, text[|s|..])
    ensures Serves(after, h, l, t.block) && RoomOK(grown, t.block, t.maxBits)
    ensures h + l == Codes(grown, text[|s|..], t.block, t.maxBits, clears)
  {
    var k := Longest(table, text, |table|);
    s := table[k];
    grown := Grown(table, s, text[|s|..], t.maxBits);
    PhraseOK(table, text, t.block, t.maxBits, clears);
    WidthAgrees(t, table, text);
    h, l := NextServes(c, t.maxBits, |t.table|, here, later, t.block);
    after := NextCode(c, t.maxBits, |t.table|).after;
    PhraseLearnt(t, table, text, k);
    GrownOK(table, s, text[|s|..], t.block, t.maxBits);
    AdvanceServed(State(t, c, []));
  }

  /** And a clear code as the table's being cleared. */
  lemma ClearRead(t: Dictionary, c: Cursor, table: seq<seq<byte>>, text: seq<byte>, clears: set<nat>,
      here: seq<Sent>, later: seq<Sent>) returns (after: Cursor, h: seq<Sent>, l: seq<Sent>)
    requires DictionaryOK(t) && CursorOK(c, t.maxBits) && Served(|t.table|, c) && !c.faulty && text != []
    requires RoomOK(table, t.block, t.maxBits) && RoomOK(Literals(t.block), t.block, t.maxBits)
    requires Agree(t, table, text) && Serves(c, here, later, t.block) && Clears(t.block, clears, |text|)
    requires here + later == Codes(table, text, t.block, t.maxBits, clears)
    ensures var t1 := Fresh(t.block, t.maxBits);
      && CursorOK(after, t.maxBits) && !after.faulty
      && Run(t, c) == Run(t1, after) && Served(|t1.table|, after) && Agree(t1, Literals(t.block), text)
      && Serves(after, h, l, t.block)
      && h + l == Phrase(Literals(t.block), text, t.block, t.maxBits, clears)
  {
    CodesOK(table, text, t.block, t.maxBits, clears);
    WidthAgrees(t, table, text);
    h, l := NextServes(c, t.maxBits, |t.table|, here, later, t.block);
    after := NextCode(c, t.maxBits, |t.table|).after.(cleared := true);
    FreshAgrees(t.block, t.maxBits, text);
    AdvanceServed(State(t, c, []));
  }

  /** A decoder whose dictionary agrees with the writer's delivers the text that is left, and then the end. */
  lemma {:induction false} Decodes(t: Dictionary, c: Cursor, table: seq<seq<byte>>, text: seq<byte>, clears: set<nat>,
      here: seq<Sent>, later: seq<Sent>)
    requires DictionaryOK(t) && CursorOK(c, t.maxBits) && Served(|t.table|, c) && !c.faulty
    requires RoomOK(table, t.block, t.maxBits) && RoomOK(Literals(t.block), t.block, t.maxBits)
    requires (text != [] ==> Agree(t, table, text)) && Serves(c, here, later, t.block)
    requires here + later == Codes(table, text, t.block, t.maxBits, clears)
    ensures Run(t, c) == Outcome(text, EndOfData)
    decreases |text|, 1
  {
    if text == [] {
      assert here == [] && later == [];
    } else if Clears(t.block, clears, |text|) {
      var after, h, l := ClearRead(t, c, table, text, clears, here, later);
      DecodesPhrase(Fresh(t.block, t.maxBits), after, Literals(t.block), text, clears, h, l);
    } else {
      DecodesPhrase(t, c, table, text, clears, here, later);
    }
  }

  lemma {:induction false} DecodesPhrase(t: Dictionary, c: Cursor, table: seq<seq<byte>>, text: seq<byte>,
      clears: set<nat>, here: seq<Sent>, later: seq<Sent>)
    requires DictionaryOK(t) && CursorOK(c, t.maxBits) && Served(|t.table|, c) && !c.faulty && text != []
    requires RoomOK(table, t.block, t.maxBits) && RoomOK(Literals(t.block), t.block, t.maxBits)
    requires Agree(t, table, text) && Serves(c, here, later, t.block)
    requires here + later == Phrase(table, text, t.block, t.maxBits, clears)
    ensures Run(t, c) == Outcome(text, EndOfData)
    decreases |text|, 0
  {
    var s, grown, after, h, l := PhraseRead(t, c, table, text, clears, here, later);
    Decodes(Learn(t, s), after, grown, text[|s|..], clears, h, l);
    JoinsRest(s, text);
  }

  lemma JoinsRest(s: seq<byte>, text: seq<byte>)
    requires s <= text
    ensures s + text[|s|..] == text
  {
  }

  lemma {:induction false} LowAdd(x: nat, m: nat, k: nat)
    ensures Low(x + Shl(m, k), k) == Low(x, k)
    decreases k
  {
    if k > 0 {
      LowAdd(x / 2, m, k - 1);
      assert (x + Shl(m, k)) / 2 == x / 2 + Shl(m, k - 1);
    }
  }

  lemma {:induction false} ShrAdd(x: nat, m: nat, k: nat)
    ensures Shr(x + Shl(m, k), k) == Shr(x, k) + m
    decreases k
  {
    if k > 0 {
      ShrAdd(x / 2, m, k - 1);
      ShrHalf(x, k - 1);
      ShrHalf(x + Shl(m, k), k - 1);
      assert (x + Shl(m, k)) / 2 == x / 2 + Shl(m, k - 1);
    }
  }

  lemma BlockFlag()
    ensures Shl(1, 7) == 128 && Shl(4, 5) == 128
  {
    assert Shl(1, 7) == 2 * Shl(1, 6) == 4 * Shl(1, 5) == 8 * Shl(1, 4) == 16 * Shl(1, 3) == 128;
    assert Shl(4, 5) == 2 * Shl(4, 4) == 4 * Shl(4, 3) == 128;
  }

  lemma HeaderByte(block: bool, maxBits: nat)
    requires 12 <= maxBits <= 16
    ensures var flags := maxBits + if block then 128 else 0;
      Low(flags, 5) == maxBits && (Shr(flags, 7) == 1 <==> block)
  {
    BlockFlag();
    Pow2Values();
    LowSmall(maxBits, 5);
    ShrZero(maxBits, 7);
    LowAdd(maxBits, 4, 5);
    ShrAdd(maxBits, 1, 7);
  }

  lemma BodyDecodes(text: seq<byte>, block: bool, maxBits: nat, clears: set<nat>, group: seq<byte>)
    requires 12 <= maxBits <= 16 && |group| == BITS && RoomOK(Literals(block), block, maxBits)
    ensures var codes := Codes(Literals(block), text, block, maxBits, clears);
      Run(Fresh(block, maxBits), Start(group, Pack(codes, block), false)) == Outcome(text, EndOfData)
  {
    var codes := Codes(Literals(block), text, block, maxBits, clears);
    var rest := Pack(codes, block);
    BeginningServed(block, maxBits, group, rest, false);
    if text != [] {
      FreshAgrees(block, maxBits, text);
    }
    assert [] + codes == codes;
    Decodes(Fresh(block, maxBits), Start(group, rest, false), Literals(block), text, clears, [], codes);
  }

  lemma ContentsBehind(data: seq<byte>, a: byte, b: byte, flags: byte, rest: seq<byte>)
    requires data == [a, b, flags] + rest && HeaderAccepted(data)
    ensures Contents(data, false)
         == Run(Fresh(Shr(flags, 7) == 1, Low(flags, 5)), Start(seq(BITS, _ => 0), rest, false))
  {
    assert data[3..] == rest;
  }

  /** What is compressed, however wide its codes and wherever the table is cleared, decompresses to the text. */
  lemma UncompressCompressed(text: seq<byte>, block: bool, maxBits: nat, clears: set<nat>)
    requires 12 <= maxBits <= 16
    ensures HeaderAccepted(Compress(text, block, maxBits, clears))
    ensures Contents(Compress(text, block, maxBits, clears), false) == Outcome(text, EndOfData)
  {
    RoomAtFirst(block, maxBits);
    HeaderByte(block, maxBits);
    var rest := Pack(Codes(Literals(block), text, block, maxBits, clears), block);
    ContentsBehind(Compress(text, block, maxBits, clears), 0x1f, 0x9d, maxBits + if block then 128 else 0, rest);
    BodyDecodes(text, block, maxBits, clears, seq(BITS, _ => 0));
  }

  /** A reader of such a stream, with buffers of any sizes, gives the text in order, and no other end than its own. */
  method ReadCompressed(text: seq<byte>, block: bool, maxBits: nat, clears: set<nat>, sizes: seq<nat>)
    returns (out: seq<byte>, error: Option<Error>)
    requires 12 <= maxBits <= 16
    ensures out <= text
    ensures error.Some? ==> out == text && error.value == EndOfData
    ensures error.None? && out != text ==> |out| == Sum(sizes)
  {
    UncompressCompressed(text, block, maxBits, clears);
    out, error := ReadStream(Compress(text, block, maxBits, clears), false, sizes);
  }
}
