/**
 The compress(1) format as a pure decoder: a dictionary from codes to byte strings
 with the string decoded last, and a cursor that cuts codes out of the input.
 */
module LzwDecoder {
  import opened Bits
  import opened Streams

  const BITS := 16
  const INIT_BITS := 9
  const CLEAR := 256

  // ----- bits of a group, least significant first

  function BitsOf(buf: seq<byte>): (bits: seq<nat>)
    ensures |bits| == 8 * |buf|
    ensures forall i | 0 <= i < |bits| :: bits[i] < 2
  {
    seq(8 * |buf|, i requires 0 <= i < 8 * |buf| => Bit(buf[i / 8], i % 8))
  }

  /** The number whose binary digits, least significant first, are bits off .. off + n. */
  function Slice(bits: seq<nat>, off: nat, n: nat): (v: nat)
    requires off + n <= |bits|
    decreases |bits| - off
  {
    if n == 0 then 0 else bits[off] + 2 * Slice(bits, off + 1, n - 1)
  }

  lemma {:induction false} SliceBound(bits: seq<nat>, off: nat, n: nat)
    requires off + n <= |bits| && forall i | off <= i < off + n :: bits[i] < 2
    ensures Slice(bits, off, n) < Pow2(n)
    decreases n
  {
    if n > 0 {
      SliceBound(bits, off + 1, n - 1);
    }
  }

  lemma {:induction false} SliceSplit(bits: seq<nat>, off: nat, m: nat, n: nat)
    requires off + m + n <= |bits|
    ensures Slice(bits, off, m + n) == Slice(bits, off, m) + Shl(Slice(bits, off + m, n), m)
    decreases m
  {
    if m > 0 {
      SliceSplit(bits, off + 1, m - 1, n);
      assert Slice(bits, off, m + n) == bits[off] + 2 * Slice(bits, off + 1, (m - 1) + n);
    }
  }

  lemma BitOfByte(buf: seq<byte>, at: nat, r: nat)
    requires at < |buf| && r < 8
    ensures BitsOf(buf)[8 * at + r] == Bit(buf[at], r)
  {
    assert (8 * at + r) / 8 == at && (8 * at + r) % 8 == r;
  }

  /** Within one byte a slice is a shift and a mask. */
  lemma {:induction false} SliceInByte(buf: seq<byte>, bits: seq<nat>, at: nat, r: nat, off: nat, n: nat)
    requires at < |buf| && r + n <= 8 && off == 8 * at + r && bits == BitsOf(buf)
    ensures Slice(bits, off, n) == Low(Shr(buf[at], r), n)
    decreases n
  {
    if n > 0 {
      SliceInByte(buf, bits, at, r + 1, off + 1, n - 1);
      BitOfByte(buf, at, r);
      assert Shr(buf[at], r + 1) == Shr(buf[at], r) / 2;
    }
  }

  // ----- the cursor

  datatype Cursor = Cursor(
    width: nat,        // bits in a code
    cleared: bool,     // a clear code was the last one read
    group: seq<byte>,
    off: nat,          // bits of the group already used
    size: int,         // no code starts at or past this bit
    rest: seq<byte>,   // input not yet in a group
    faulty: bool)      // the input ends in a read error, not in end of data

  predicate CursorOK(c: Cursor, maxBits: nat) {
    && INIT_BITS <= c.width <= maxBits <= BITS
    && |c.group| == BITS
    && c.size <= 8 * c.width - (c.width - 1)
  }

  /** Codes of this width serve as long as the table has no more than this many entries. */
  function Limit(maxBits: nat, width: nat): int {
    if width == maxBits then Pow2(maxBits) else Pow2(width) - 1
  }

  predicate NeedsGroup(c: Cursor, maxBits: nat, free: nat) {
    c.cleared || c.off >= c.size || free > Limit(maxBits, c.width)
  }

  function NextWidth(c: Cursor, maxBits: nat, free: nat): nat {
    if c.cleared then INIT_BITS
    else if free > Limit(maxBits, c.width) then c.width + 1
    else c.width
  }

  /** A group is as many bytes as a code has bits; a short one keeps the old tail. */
  function TakeGroup(c: Cursor, w: nat): (r: Cursor)
    requires INIT_BITS <= w <= BITS && |c.group| == BITS
    ensures w <= BITS ==> CursorOK(r, w)
  {
    var got := if w <= |c.rest| then w else |c.rest|;
    Cursor(w, false, c.rest[..got] + c.group[got..], 0, 8 * got - (w - 1), c.rest[got..], c.faulty)
  }

  datatype GroupResult = Ready(cursor: Cursor) | NoGroup(error: Error)

  /** A cursor whose group holds a whole code: the present group, or else the next one. */
  function ReadyGroup(c: Cursor, maxBits: nat, free: nat): (r: GroupResult)
    requires 12 <= maxBits && CursorOK(c, maxBits) && free <= Pow2(maxBits)
    ensures r.Ready? ==> CursorOK(r.cursor, maxBits) && r.cursor.off + r.cursor.width <= 8 * BITS
    ensures r.Ready? ==> (r.cursor == c && c.off < c.size) || |r.cursor.rest| < |c.rest|
  {
    if !NeedsGroup(c, maxBits, free) then Ready(c)
    else if |c.rest| < NextWidth(c, maxBits, free) && c.faulty then NoGroup(ReadFailed)
    else if |c.rest| == 0 then NoGroup(EndOfData)
    else Ready(TakeGroup(c, NextWidth(c, maxBits, free)))
  }

  datatype CodeResult = Code(code: nat, after: Cursor) | NoCode(error: Error)

  function NextCode(c: Cursor, maxBits: nat, free: nat): (r: CodeResult)
    requires 12 <= maxBits && CursorOK(c, maxBits) && free <= Pow2(maxBits)
    ensures r.Code? ==> CursorOK(r.after, maxBits)
    ensures r.Code? ==> |r.after.rest| < |c.rest|
                        || (|r.after.rest| == |c.rest| && Unused(r.after) < Unused(c))
  {
    match ReadyGroup(c, maxBits, free)
    case NoGroup(e) => NoCode(e)
    case Ready(c1) => Code(Slice(BitsOf(c1.group), c1.off, c1.width), c1.(off := c1.off + c1.width))
  }

  /** Bits of the present group from which a code may still start. */
  function Unused(c: Cursor): nat {
    if c.size > c.off then c.size - c.off else 0
  }

  /** No code reaches the width of the widest one. */
  lemma CodeBound(c: Cursor, maxBits: nat, free: nat)
    requires 12 <= maxBits && CursorOK(c, maxBits) && free <= Pow2(maxBits)
    ensures NextCode(c, maxBits, free).Code? ==> NextCode(c, maxBits, free).code < Pow2(maxBits)
  {
    var r := ReadyGroup(c, maxBits, free);
    if r.Ready? {
      SliceBound(BitsOf(r.cursor.group), r.cursor.off, r.cursor.width);
      Pow2Monotone(r.cursor.width, maxBits);
    }
  }

  // ----- the dictionary

  datatype Dictionary = Dictionary(
    block: bool,               // a clear code resets the dictionary
    maxBits: nat,
    table: seq<seq<byte>>,     // the string of each code; the clear code has none
    prev: seq<byte>)           // the string decoded last, or nothing

  ghost predicate DictionaryOK(t: Dictionary) {
    && 12 <= t.maxBits <= BITS
    && 256 <= |t.table| <= Pow2(t.maxBits)
    && (t.block ==> CLEAR < |t.table| && t.table[CLEAR] == [])
  }

  /** A dictionary of the 256 one-byte strings. */
  function Fresh(block: bool, maxBits: nat): (t: Dictionary)
    requires 12 <= maxBits <= BITS
    ensures DictionaryOK(t)
  {
    Pow2Values();
    Pow2Monotone(12, maxBits);
    Dictionary(block, maxBits, seq(256, i requires 0 <= i < 256 => [i]) + if block then [[]] else [], [])
  }

  /** The string a code stands for; a code one past the table is the previous string and its first byte. */
  function StringOf(t: Dictionary, code: nat): (s: seq<byte>)
  {
    if code < |t.table| then t.table[code]
    else if code == |t.table| && t.prev != [] then t.prev + [t.prev[0]]
    else []
  }

  /** After s: unless the table is full, the previous string and the first byte of s are the next entry. */
  function Learn(t: Dictionary, s: seq<byte>): (r: Dictionary)
    requires DictionaryOK(t) && s != []
    ensures DictionaryOK(r)
  {
    if |t.table| < Pow2(t.maxBits) && t.prev != [] then
      t.(table := t.table + [t.prev + [s[0]]], prev := s)
    else
      t.(prev := s)
  }

  // ----- the decoder

  /** All that is still to come: the strings of the codes left, each taught to the dictionary. */
  function Run(t: Dictionary, c: Cursor): (o: Outcome)
    requires DictionaryOK(t) && CursorOK(c, t.maxBits)
    decreases |c.rest|, Unused(c)
  {
    match NextCode(c, t.maxBits, |t.table|)
    case NoCode(e) => Outcome([], e)
    case Code(code, after) =>
      if t.block && code == CLEAR then Run(Fresh(true, t.maxBits), after.(cleared := true))
      else if StringOf(t, code) == [] then Outcome([], Corrupt)
      else Prepend(StringOf(t, code), Run(Learn(t, StringOf(t, code)), after))
  }

  /** A cursor at the start of a stream, over whatever an earlier group left behind. */
  function Start(group: seq<byte>, rest: seq<byte>, faulty: bool): Cursor {
    Cursor(INIT_BITS, false, group, 0, 0, rest, faulty)
  }

  lemma SameCodeSameRun(t: Dictionary, c1: Cursor, c2: Cursor)
    requires DictionaryOK(t) && CursorOK(c1, t.maxBits) && CursorOK(c2, t.maxBits)
    requires NextCode(c1, t.maxBits, |t.table|) == NextCode(c2, t.maxBits, |t.table|)
    ensures Run(t, c1) == Run(t, c2)
  {
  }

  /** A clear drops the rest of the group and its width. */
  lemma ClearedGroup(c: Cursor, maxBits: nat, size: nat)
    requires 12 <= maxBits && CursorOK(c, maxBits) && size == 257 && size <= Pow2(maxBits)
    ensures CursorOK(c.(cleared := true), maxBits)
    ensures CursorOK(Start(c.group, c.rest, c.faulty), maxBits)
    ensures ReadyGroup(c.(cleared := true), maxBits, size)
            == ReadyGroup(Start(c.group, c.rest, c.faulty), maxBits, size)
  {
    var c1, c2 := c.(cleared := true), Start(c.group, c.rest, c.faulty);
    Pow2Values();
    assert NextWidth(c1, maxBits, size) == NextWidth(c2, maxBits, size) == INIT_BITS;
  }

  /** After a clear code decoding goes on as on a fresh stream. */
  lemma ClearStartsOver(maxBits: nat, c: Cursor)
    requires 12 <= maxBits && CursorOK(c, maxBits)
    ensures Run(Fresh(true, maxBits), c.(cleared := true))
            == Run(Fresh(true, maxBits), Start(c.group, c.rest, c.faulty))
  {
    var t := Fresh(true, maxBits);
    ClearedGroup(c, maxBits, |t.table|);
    SameCodeSameRun(t, c.(cleared := true), Start(c.group, c.rest, c.faulty));
  }
}
