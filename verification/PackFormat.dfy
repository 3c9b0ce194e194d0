/** The pack(1) format as a pure decoder: level counts and a symbol table, then a string of bits. */
module PackFormat {
  import opened Bits
  import opened Streams

  const MAX_LEVELS := 24

  // ----- bits, most significant first

  predicate Binary(bits: seq<nat>) {
    forall i | 0 <= i < |bits| :: bits[i] < 2
  }

  function BitsOf(v: nat, n: nat): (bits: seq<nat>)
    ensures |bits| == n && Binary(bits)
  {
    seq(n, i requires 0 <= i < n => Bit(v, n - 1 - i))
  }

  lemma BitsOfLast(v: nat, n: nat)
    ensures BitsOf(v, n + 1) == BitsOf(v / 2, n) + [v % 2]
  {
    var whole, parts := BitsOf(v, n + 1), BitsOf(v / 2, n) + [v % 2];
    assert Bit(v, 0) == Shr(v, 0) % 2 == v % 2;
    forall i | 0 <= i < n + 1 ensures whole[i] == parts[i] {
      if i < n {
        BitHalf(v, n - 1 - i);
      } else {
        assert whole[n] == Bit(v, 0);
      }
    }
  }

  function ByteBits(data: seq<byte>): (bits: seq<nat>)
    ensures |bits| == 8 * |data|
    ensures Binary(bits)
  {
    if data == [] then [] else BitsOf(data[0], 8) + ByteBits(data[1..])
  }

  lemma {:induction false} ByteBitsConcat(a: seq<byte>, b: seq<byte>)
    ensures ByteBits(a + b) == ByteBits(a) + ByteBits(b)
  {
    if a == [] {
      assert a + b == b;
    } else {
      ByteBitsConcat(a[1..], b);
      assert (a + b)[1..] == a[1..] + b && (a + b)[0] == a[0];
      ConcatAssociates(BitsOf(a[0], 8), ByteBits(a[1..]), ByteBits(b));
    }
  }

  lemma ConcatAssociates(a: seq<nat>, b: seq<nat>, c: seq<nat>)
    ensures a + (b + c) == (a + b) + c
  {
  }

  // ----- the header's tables

  /** symbolsIn counts the leaves of each level, the end symbol among the last; symbol lists them level by level. */
  datatype Tables = Tables(symbolsIn: seq<nat>, symbol: seq<byte>, eob: nat, size: nat)

  /** The sum of the first n counts. */
  function Sum(counts: seq<nat>, n: nat): nat
    requires n <= |counts|
  {
    if n == 0 then 0 else Sum(counts, n - 1) + counts[n - 1]
  }

  predicate TablesOK(t: Tables) {
    && 1 <= |t.symbolsIn| <= MAX_LEVELS
    && 2 <= t.symbolsIn[|t.symbolsIn| - 1]
    && Sum(t.symbolsIn, |t.symbolsIn|) == t.eob + 1 == |t.symbol|
  }

  /** Internal nodes of a level: half of everything one level down. */
  function Inodes(symbolsIn: seq<nat>, level: nat): nat
    decreases |symbolsIn| - level
  {
    if level + 1 >= |symbolsIn| then 0 else (Inodes(symbolsIn, level + 1) + symbolsIn[level + 1]) / 2
  }

  // ----- decoding

  datatype Found = Leaf(index: nat, rest: seq<nat>) | BadIndex | TooDeep | OutOfBits

  /** Feeds bits into code until they name a leaf of the level reached. */
  function FindLeaf(t: Tables, level: nat, code: nat, bits: seq<nat>): (f: Found)
    requires TablesOK(t)
    decreases |bits|
  {
    if level >= |t.symbolsIn| then TooDeep
    else if bits == [] then OutOfBits
    else
      var next := 2 * code + bits[0];
      var inodes := Inodes(t.symbolsIn, level);
      if next < inodes then FindLeaf(t, level + 1, next, bits[1..])
      else if next - inodes > t.symbolsIn[level] then BadIndex
      else Leaf(Sum(t.symbolsIn, level) + (next - inodes), bits[1..])
  }

  /** The walk of a code so far has met internal nodes only. */
  predicate AtNode(t: Tables, level: nat, code: nat) {
    level < |t.symbolsIn| && if level == 0 then code == 0 else code < Inodes(t.symbolsIn, level - 1)
  }

  lemma {:induction false} SumMonotone(s: seq<nat>, i: nat, j: nat)
    requires i <= j <= |s|
    ensures Sum(s, i) <= Sum(s, j)
    decreases j
  {
    if i < j {
      SumMonotone(s, i, j - 1);
    }
  }

  /**
   Every index found lies in the symbol table, a walk is at most as many bits as there are levels, and it
   never runs past the deepest level; the index check fails only for a first bit 1 under an empty root.
   */
  lemma {:induction false} WalkStaysInside(t: Tables, level: nat, code: nat, bits: seq<nat>)
    requires TablesOK(t) && AtNode(t, level, code) && Binary(bits)
    ensures var f := FindLeaf(t, level, code, bits);
      && !f.TooDeep?
      && (f.Leaf? ==> f.index < |t.symbol| && |f.rest| < |bits| && f.rest == bits[|bits| - |f.rest|..])
      && (f.Leaf? ==> |bits| - |f.rest| <= |t.symbolsIn| - level)
      && (f.BadIndex? <==>
            level == 0 && bits != [] && bits[0] == 1 && Inodes(t.symbolsIn, 0) == 0 && t.symbolsIn[0] == 0)
    decreases |bits|
  {
    if bits != [] {
      var next := 2 * code + bits[0];
      var inodes := Inodes(t.symbolsIn, level);
      if next < inodes {
        WalkStaysInside(t, level + 1, next, bits[1..]);
      } else {
        var s := t.symbolsIn;
        SumMonotone(s, level + 1, |s|);
        if level + 1 < |s| {
          SumMonotone(s, level + 1, |s| - 1);
        }
      }
    }
  }

  /** All that is still to come of bits once done bytes are out. An end symbol before the stored length is a byte. */
  function Run(t: Tables, bits: seq<nat>, done: nat, faulty: bool): (o: Outcome)
    requires TablesOK(t) && Binary(bits)
    decreases |bits|
  {
    WalkStaysInside(t, 0, 0, bits);
    match FindLeaf(t, 0, 0, bits)
    case OutOfBits => Outcome([], if faulty then ReadFailed else if done == t.size then EndOfData else Corrupt)
    case BadIndex => Outcome([], Corrupt)
    case TooDeep => Outcome([], Corrupt)
    case Leaf(index, rest) =>
      if index == t.eob && done == t.size then Outcome([], EndOfData)
      else Prepend([t.symbol[index]], Run(t, rest, done + 1, faulty))
  }

  // ----- the header

  datatype Parsed = Parsed(tables: Tables, text: seq<byte>) | Rejected(error: Error)

  function Number(b: seq<byte>): (n: nat) {
    if b == [] then 0 else 256 * Number(b[..|b| - 1]) + b[|b| - 1]
  }

  /** The stored counts with the last one's two missing leaves. */
  function Leaves(stored: seq<byte>): (counts: seq<nat>)
    requires stored != []
  {
    var last := |stored| - 1;
    seq(|stored|, i requires 0 <= i < |stored| => stored[i] as int + if i == last then 2 else 0)
  }

  lemma {:induction false} SumSame(a: seq<nat>, b: seq<nat>, n: nat)
    requires n <= |a| && n <= |b| && forall i | 0 <= i < n :: a[i] == b[i]
    ensures Sum(a, n) == Sum(b, n)
  {
    if n > 0 {
      SumSame(a, b, n - 1);
    }
  }

  /** Level counts (the last two short), then the symbols of each level but the end symbol. */
  function ParseTables(data: seq<byte>, levels: nat, size: nat, faulty: bool): (p: Parsed)
    requires 1 <= levels <= MAX_LEVELS
    ensures p.Parsed? ==> TablesOK(p.tables)
  {
    var short := if faulty then ReadFailed else Corrupt;
    if |data| < levels then Rejected(short)
    else
      var stored := data[..levels];
      var n := Sum(stored, levels) + 1;
      if n > 256 then Rejected(Corrupt)
      else if |data| < levels + n then Rejected(short)
      else
        SumSame(Leaves(stored), stored, levels - 1);
        Parsed(Tables(Leaves(stored), data[levels..levels + n] + [0], n, size), data[levels + n..])
  }

  /** Magic, length and number of levels, then the tables. */
  function Parse(data: seq<byte>, faulty: bool): (p: Parsed)
    ensures p.Parsed? ==> TablesOK(p.tables)
  {
    if |data| < 7 then Rejected(if faulty then ReadFailed else Corrupt)
    else if data[0] != 0x1f || data[1] != 0x1e then Rejected(Corrupt)
    else if data[6] > MAX_LEVELS || data[6] < 1 then Rejected(Corrupt)
    else ParseTables(data[7..], data[6], Number(data[2..6]), faulty)
  }

  /** What a packed file holds. */
  function Contents(data: seq<byte>, faulty: bool): (o: Outcome) {
    match Parse(data, faulty)
    case Rejected(e) => Outcome([], e)
    case Parsed(t, text) => Run(t, ByteBits(text), 0, faulty)
  }

  lemma FourBytes(b: seq<byte>)
    requires |b| == 4
    ensures Number(b) == 0x1000000 * (b[0] as int) + 0x10000 * (b[1] as int) + 0x100 * (b[2] as int) + b[3] as int
  {
    assert b[..3][..2] == b[..2] && b[..2][..1] == b[..1] && b[..1][..0] == [];
    assert Number(b[..1]) == b[0] as int;
    assert Number(b[..2]) == 256 * Number(b[..1]) + b[1] as int;
    assert Number(b[..3]) == 256 * Number(b[..2]) + b[2] as int;
  }

  /** Accepted is magic, 1 to 24 levels, at most 256 symbols by their counts, and all of this there. */
  lemma ParsedIs(data: seq<byte>, faulty: bool)
    ensures Parse(data, faulty).Parsed? <==>
              && |data| >= 7 && data[0] == 31 && data[1] == 30 && 1 <= data[6] <= 24 && |data| >= 7 + data[6] as int
              && var levels := data[6] as int;
                 var n := Sum(data[7..7 + levels], levels) + 1;
                 n <= 256 && |data| >= 7 + levels + n
    ensures Parse(data, faulty).Parsed? ==>
              && |Parse(data, faulty).tables.symbolsIn| == data[6] as int
              && Parse(data, faulty).tables.size ==
                 0x1000000 * (data[2] as int) + 0x10000 * (data[3] as int) + 0x100 * (data[4] as int) + data[5] as int
  {
    if |data| >= 7 {
      FourBytes(data[2..6]);
      if |data| >= 7 + data[6] as int {
        assert data[7..][..data[6]] == data[7..7 + data[6] as int];
      }
    }
  }
}
