/** The pack(1) encoder from code lengths on: levels, bit patterns, header and text. */
module PackWriter {
  import opened Bits
  import opened PackFormat
  import opened PackCode

  // ----- levels and bit patterns

  /** Counts the codes of each length and finds the longest; a code of more than 24 bits is refused. */
  method Levels(length: array<nat>) returns (levcount: array<nat>, maxlev: nat, ok: bool)
    requires length.Length == 257
    ensures ok <==> forall c | 0 <= c < 257 :: length[c] <= 24
    ensures fresh(levcount) && levcount.Length == 25
    ensures ok ==> forall i | 0 <= i < 25 :: levcount[i] == Count(length[..], i)
    ensures ok ==> (forall c | 0 <= c < 257 :: length[c] <= maxlev) && exists c | 0 <= c < 257 :: length[c] == maxlev
  {
    levcount := new nat[25](_ => 0);
    maxlev, ok := 0, true;
    ghost var deepest: nat := 0;
    for i := 0 to 257
      invariant maxlev <= 24 && forall c | 0 <= c < i :: length[c] <= maxlev
      invariant if i == 0 then maxlev == deepest == 0 else deepest < i && length[deepest] == maxlev
      invariant forall l | 0 <= l < 25 :: levcount[l] == Rank(length[..], l, i)
    {
      var c := length[i];
      if c > 24 {
        ok := false;
        return;
      }
      levcount[c] := levcount[c] + 1;
      if maxlev < c {
        maxlev, deepest := c, i;
      }
    }
    assert |length[..]| == 257;
  }

  /** A symbol's code, left-aligned in 24 bits. */
  function Pattern(len: seq<nat>, maxlev: nat, c: nat): nat
    requires c < |len| && len[c] <= 24
  {
    Shl(CodeOf(len, maxlev, c), 24 - len[c])
  }

  /** The codes of length i below n have their patterns, and all others are as they were. */
  ghost predicate LevelDone(bits: array<nat>, was: seq<nat>, len: seq<nat>, maxlev: nat, i: nat, n: nat)
    reads bits
    requires bits.Length == |was| == |len| && i <= 24
  {
    forall c | 0 <= c < |len| :: bits[c] == if c < n && len[c] == i then Pattern(len, maxlev, c) else was[c]
  }

  /** One more code of a length. */
  lemma NextPattern(len: seq<nat>, maxlev: nat, i: nat, c: nat, inner: nat)
    requires c < |len| && len[c] == i <= 24 && inner == Inner(len, maxlev, i)
    ensures Shl(inner + Rank(len, i, c), 24 - i) == Pattern(len, maxlev, c)
    ensures Shl(inner + Rank(len, i, c + 1), 24 - i) == Pattern(len, maxlev, c) + Shl(1, 24 - i)
  {
    ShlAdd(inner + Rank(len, i, c), 1, 24 - i);
  }

  method AssignLevel(length: array<nat>, bits: array<nat>, maxlev: nat, i: nat, inc: nat, start: nat,
                     ghost unit: nat)
    returns (mask: nat)
    requires length.Length == bits.Length == 257 && length != bits
    requires 1 <= i <= maxlev <= 24 && unit == 24 - i && forall c | 0 <= c < 257 :: length[c] <= maxlev
    requires inc == Shl(1, unit) && start == Shl(Inner(length[..], maxlev, i), unit)
    modifies bits
    ensures mask == Shl(Inner(length[..], maxlev, i) + Count(length[..], i), unit)
    ensures LevelDone(bits, old(bits[..]), length[..], maxlev, i, 257)
  {
    mask := start;
    ghost var len := length[..];
    ghost var inner := Inner(len, maxlev, i);
    for c := 0 to 257
      invariant mask == Shl(inner + Rank(len, i, c), unit)
      invariant LevelDone(bits, old(bits[..]), len, maxlev, i, c)
    {
      if length[c] == i {
        NextPattern(len, maxlev, i, c, inner);
        bits[c] := mask;
        mask := mask + inc;
      }
    }
  }

  /** The distance between two codes of a length, left-aligned in so many bits. */
  method Step(width: nat, length: nat) returns (inc: nat)
    requires length <= width
    ensures inc == Shl(1, width - length)
  {
    ShrShl(1, width, length);
    inc := Shr(Shl(1, width), length);
  }

  /** The codes longer than i have their patterns. */
  ghost predicate LongerDone(bits: seq<nat>, len: seq<nat>, maxlev: nat, i: nat)
    requires |bits| == |len|
  {
    forall c | 0 <= c < |len| && i < len[c] <= 24 :: bits[c] == Pattern(len, maxlev, c)
  }

  lemma LevelJoins(bits: array<nat>, was: seq<nat>, len: seq<nat>, maxlev: nat, i: nat)
    requires bits.Length == |was| == |len| && 0 < i <= 24 && LongerDone(was, len, maxlev, i)
    requires LevelDone(bits, was, len, maxlev, i, |len|)
    ensures LongerDone(bits[..], len, maxlev, i - 1)
  {
  }

  /** Mask and step one level up. */
  lemma MaskUp(len: seq<nat>, maxlev: nat, i: nat, mask: nat, inc: nat, unit: nat)
    requires 0 < i <= maxlev && inc == Shl(1, unit)
    requires mask == Shl(Inner(len, maxlev, i) + Count(len, i), unit)
    ensures AndNot(mask, inc) == Shl(Inner(len, maxlev, i - 1), unit + 1) && Shl(inc, 1) == Shl(1, unit + 1)
  {
    AndNotLowest(Inner(len, maxlev, i) + Count(len, i), unit);
    ShlShl(1, unit, 1);
  }

  /** Bit patterns by length, longest first: leaves after the internal nodes, and a level's pairs one level up. */
  method BitPatterns(length: array<nat>, maxlev: nat) returns (bits: array<nat>)
    requires length.Length == 257
    requires maxlev <= 24 && forall c | 0 <= c < 257 :: length[c] <= maxlev
    ensures fresh(bits) && bits.Length == 257
    ensures forall c | 0 <= c < 257 && 1 <= length[c] :: bits[c] == Shl(CodeOf(length[..], maxlev, c), 24 - length[c])
  {
    bits := new nat[257](_ => 0);
    ghost var len := length[..];
    var inc := Step(24, maxlev);
    var mask := 0;
    ghost var unit := 24 - maxlev;
    ShlZero(unit);
    var i: nat := maxlev;
    while i > 0
      invariant i <= maxlev && unit == 24 - i && inc == Shl(1, unit) && mask == Shl(Inner(len, maxlev, i), unit)
      invariant LongerDone(bits[..], len, maxlev, i) == true
    {
      ghost var was := bits[..];
      mask := AssignLevel(length, bits, maxlev, i, inc, mask, unit);
      LevelJoins(bits, was, len, maxlev, i);
      MaskUp(len, maxlev, i, mask, inc, unit);
      mask, inc, i := AndNot(mask, inc), Shl(inc, 1), i - 1;
      unit := unit + 1;
    }
    assert forall c | 0 <= c < 257 :: bits[c] == bits[..][c];
  }

  // ----- the header

  function BigEndian(n: nat): (b: seq<byte>) {
    [n / 0x1000000 % 256, n / 0x10000 % 256, n / 0x100 % 256, n % 256]
  }

  /** The counts as stored: a byte each, the last two short. */
  function StoredCounts(len: seq<nat>, depth: nat, i: nat): (b: seq<byte>)
  {
    if i == 0 then []
    else StoredCounts(len, depth, i - 1) + [(if i == depth then Count(len, i) - 2 else Count(len, i)) % 256]
  }

  function HeaderOf(len: seq<nat>, depth: nat, size: nat): (b: seq<byte>)
    requires |len| == 257 && depth <= 24
  {
    [0x1f, 0x1e] + BigEndian(size) + [depth] + StoredCounts(len, depth, depth) + Symbols(len, depth)
  }

  method Header(length: array<nat>, levcount: array<nat>, maxlev: nat, insize: nat) returns (out: seq<byte>)
    requires length.Length == 257 && levcount.Length == 25 && 1 <= maxlev <= 24
    requires forall i | 0 <= i < 25 :: levcount[i] == Count(length[..], i)
    ensures out == HeaderOf(length[..], maxlev, insize)
  {
    ghost var len := length[..];
    out := [0x1f, 0x1e, insize / 0x1000000 % 256, insize / 0x10000 % 256, insize / 0x100 % 256, insize % 256, maxlev];
    ghost var fixed := out;
    assert fixed == [0x1f, 0x1e] + BigEndian(insize) + [maxlev];
    for i := 1 to maxlev
      invariant out == fixed + StoredCounts(len, maxlev, i - 1)
    {
      out := out + [levcount[i] % 256];
    }
    out := out + [(levcount[maxlev] as int - 2) % 256];
    ghost var counted := out;
    assert counted == fixed + StoredCounts(len, maxlev, maxlev);
    for i := 1 to maxlev + 1
      invariant out == counted + Symbols(len, i - 1)
    {
      ghost var before := out;
      for c := 0 to 256
        invariant out == before + LevelSymbols(len, i, c)
      {
        if length[c] == i {
          out := out + [c];
        }
      }
    }
  }

  // ----- the text

  function Zeros(n: nat): (z: seq<nat>) {
    seq(n, _ => 0)
  }

  /** Byte j of a 32-bit number, most significant first. */
  function ByteAt(m: nat, j: nat): (b: byte)
    requires j < 4
  {
    Pow2Values();
    Low(Shr(m, 24 - 8 * j), 8)
  }

  lemma {:induction false} BitLow(x: nat, n: nat, k: nat)
    requires k < n
    ensures Bit(Low(x, n), k) == Bit(x, k)
    decreases k
  {
    if k > 0 {
      BitLow(x / 2, n - 1, k - 1);
      BitHalf(x, k - 1);
      BitHalf(Low(x, n), k - 1);
      assert Low(x, n) / 2 == Low(x / 2, n - 1);
    }
  }

  lemma FieldBit(x: nat, shift: nat, w: nat, k: nat)
    requires k < w
    ensures Bit(Low(Shr(x, shift), w), k) == Bit(x, shift + k)
  {
    BitLow(Shr(x, shift), w, k);
    ShrShr(x, shift, k);
  }

  lemma ByteAtBit(m: nat, j: nat, k: nat)
    requires j < 4 && k < 8
    ensures Bit(ByteAt(m, j), k) == Bit(m, 24 - 8 * j + k)
  {
    FieldBit(m, 24 - 8 * j, 8, k);
  }

  lemma OctetOf(m: nat, j: nat)
    requires j < 4
    ensures BitsOf(ByteAt(m, j), 8) == BitsOf(m, 32)[8 * j..8 * j + 8]
  {
    var b := ByteAt(m, j);
    forall i | 0 <= i < 8 ensures BitsOf(b, 8)[i] == BitsOf(m, 32)[8 * j + i] {
      ByteAtBit(m, j, 7 - i);
    }
  }

  lemma BitShl(v: nat, n: nat, trail: nat, k: nat)
    requires v < Pow2(n)
    ensures Bit(Shl(v, trail), k) == if trail <= k < trail + n then Bit(v, k - trail) else 0
  {
    ShrShl(v, trail, k);
    if k < trail {
      assert Shl(v, trail - k) == 2 * Shl(v, trail - k - 1);
    } else if k >= trail + n {
      Pow2Monotone(n, k - trail);
      ShrZero(v, k - trail);
    } else {
      assert Shl(v, 0) == v;
    }
  }

  /** A code shifted into place in 32 bits is its bits among zeros. */
  lemma ShiftedWord(v: nat, n: nat, lead: nat, trail: nat)
    requires v < Pow2(n)
    ensures BitsOf(Shl(v, trail), lead + n + trail) == Zeros(lead) + BitsOf(v, n) + Zeros(trail)
  {
    var all := lead + n + trail;
    var parts := Zeros(lead) + BitsOf(v, n) + Zeros(trail);
    forall i | 0 <= i < all ensures BitsOf(Shl(v, trail), all)[i] == parts[i] {
      BitShl(v, n, trail, all - 1 - i);
    }
  }

  /** OR joins a byte whose last bits are free with one that uses only those. */
  lemma OrSplice(a: byte, b: byte, free: nat)
    requires free <= 8
    requires BitsOf(a, 8)[8 - free..] == Zeros(free) && BitsOf(b, 8)[..8 - free] == Zeros(8 - free)
    ensures Or(a, b) < 256
    ensures BitsOf(Or(a, b), 8) == BitsOf(a, 8)[..8 - free] + BitsOf(b, 8)[8 - free..]
  {
    Pow2Values();
    OrBound(a, b, 8);
    forall i | 0 <= i < 8
      ensures BitsOf(Or(a, b), 8)[i] == (BitsOf(a, 8)[..8 - free] + BitsOf(b, 8)[8 - free..])[i]
    {
      OrBit(a, b, 7 - i);
      if i < 8 - free {
        assert BitsOf(b, 8)[..8 - free][i] == 0;
      } else {
        assert BitsOf(a, 8)[8 - free..][i - (8 - free)] == 0;
      }
    }
  }

  lemma ByteBitsSnoc(data: seq<byte>, b: byte)
    ensures ByteBits(data + [b]) == ByteBits(data) + BitsOf(b, 8)
  {
    ByteBitsConcat(data, [b]);
    assert ByteBits([b]) == BitsOf(b, 8) + ByteBits([]);
  }

  /** Bits still free in the last byte; a count of eight means that no byte has been started. */
  function Free(bitsleft: nat): nat {
    if bitsleft == 8 then 0 else bitsleft
  }

  /** The bytes hold the bits and then zeros to the end of the last byte. */
  ghost predicate Holds(text: seq<byte>, bits: seq<nat>, bitsleft: nat) {
    && bitsleft <= 8
    && (bitsleft < 8 ==> text != [])
    && ByteBits(text) == bits + Zeros(Free(bitsleft))
  }

  /** Starts a word: a new byte, or the free bits of the last one. s is the word with zeros around it. */
  lemma StartWord(text: seq<byte>, bits: seq<nat>, bitsleft: nat, b: byte, s: seq<nat>)
    requires Holds(text, bits, bitsleft)
    requires |s| == 32 && s[..8] == BitsOf(b, 8) && s[..8 - bitsleft] == Zeros(8 - bitsleft)
    ensures bitsleft == 8 ==> ByteBits(text + [b]) == bits + s[8 - bitsleft..8]
    ensures bitsleft < 8 ==>
              var last := |text| - 1;
              Or(text[last], b) < 256 && ByteBits(text[..last] + [Or(text[last], b)]) == bits + s[8 - bitsleft..8]
  {
    if bitsleft == 8 {
      ByteBitsSnoc(text, b);
      assert bits + Zeros(0) == bits;
    } else {
      var front, a := text[..|text| - 1], text[|text| - 1];
      ByteBitsSnoc(front, a);
      assert front + [a] == text;
      var k := 8 - bitsleft;
      assert BitsOf(a, 8) == ByteBits(text)[|text| * 8 - 8..];
      assert BitsOf(a, 8)[k..] == Zeros(bitsleft);
      assert BitsOf(b, 8)[..k] == s[..k];
      OrSplice(a, b, bitsleft);
      ByteBitsSnoc(front, Or(a, b));
      assert bits == ByteBits(front) + BitsOf(a, 8)[..k];
      assert BitsOf(b, 8)[k..] == s[k..8];
    }
  }

  method StartByte(was: seq<byte>, left: nat, b: byte, ghost s: seq<nat>, ghost bits: seq<nat>)
      returns (text: seq<byte>)
    requires Holds(was, bits, left)
    requires |s| == 32 && s[..8] == BitsOf(b, 8) && s[..8 - left] == Zeros(8 - left)
    ensures text != [] && ByteBits(text) == bits + s[8 - left..8]
  {
    StartWord(was, bits, left, b, s);
    if left == 8 {
      text := was + [b];
    } else {
      text := was[..|was| - 1] + [Or(was[|was| - 1], b)];
    }
  }

  /** Whole bytes of the word while bits are missing. */
  method SpillBytes(was: seq<byte>, left: nat, n: nat, shuf: seq<byte>, ghost s: seq<nat>, ghost bits: seq<nat>)
    returns (text: seq<byte>, bitsleft: int)
    requires left <= 8 && 1 <= n <= 24 && |s| == 32 && |shuf| == 4
    requires forall j | 0 <= j < 4 :: BitsOf(shuf[j], 8) == s[8 * j..8 * j + 8]
    requires was != [] && ByteBits(was) == bits + s[8 - left..8]
    ensures text != [] && 0 <= bitsleft < 8 && 8 - left + n + bitsleft <= 32
    ensures ByteBits(text) == bits + s[8 - left..8 - left + n + bitsleft]
  {
    text, bitsleft := was, left - n;
    var q := 1;
    while bitsleft < 0
      invariant 1 <= q <= 4 && bitsleft == left - n + 8 * (q - 1) < 8
      invariant text != [] && ByteBits(text) == bits + s[8 - left..8 * q]
      decreases -bitsleft
    {
      ByteBitsSnoc(text, shuf[q]);
      assert s[8 - left..8 * q + 8] == s[8 - left..8 * q] + s[8 * q..8 * q + 8];
      ConcatAssociates(bits, s[8 - left..8 * q], s[8 * q..8 * q + 8]);
      text := text + [shuf[q]];
      q := q + 1;
      bitsleft := bitsleft + 8;
    }
  }

  /** Adds one code word, left-aligned in 24 bits, to the text after a file's header. */
  method PutWord(was: seq<byte>, left: nat, pattern: nat, n: nat, ghost v: nat, ghost bits: seq<nat>)
    returns (text: seq<byte>, bitsleft: int)
    requires Holds(was, bits, left)
    requires 1 <= n <= 24 && v < Pow2(n) && pattern == Shl(v, 24 - n)
    ensures 0 <= bitsleft < 8 && Holds(text, bits + BitsOf(v, n), bitsleft)
  {
    var m := Shl(pattern, left) % 0x1_0000_0000;
    ghost var s := BitsOf(m, 32);
    Shifted(m, pattern, v, n, left, s);
    var shuf := [ByteAt(m, 0), ByteAt(m, 1), ByteAt(m, 2), ByteAt(m, 3)];
    forall j | 0 <= j < 4 ensures BitsOf(shuf[j], 8) == s[8 * j..8 * j + 8] {
      OctetOf(m, j);
    }
    text := StartByte(was, left, shuf[0], s, bits);
    text, bitsleft := SpillBytes(text, left, n, shuf, s, bits);
    WordInside(s, left, v, n, bitsleft);
    ConcatAssociates(bits, BitsOf(v, n), Zeros(bitsleft));
  }

  lemma WordInside(s: seq<nat>, left: nat, v: nat, n: nat, bitsleft: nat)
    requires left <= 8 && n <= 24 && s == Zeros(8 - left) + BitsOf(v, n) + Zeros(24 - n + left) &&
             8 - left + n + bitsleft <= 32
    ensures s[8 - left..8 - left + n + bitsleft] == BitsOf(v, n) + Zeros(bitsleft)
  {
  }

  lemma Shifted(m: nat, pattern: nat, v: nat, n: nat, left: nat, s: seq<nat>)
    requires 1 <= n <= 24 && left <= 8 && v < Pow2(n) && pattern == Shl(v, 24 - n)
    requires m == Shl(pattern, left) % 0x1_0000_0000 && s == BitsOf(m, 32)
    ensures s == Zeros(8 - left) + BitsOf(v, n) + Zeros(24 - n + left) && s[..8 - left] == Zeros(8 - left)
  {
    ShlShl(v, 24 - n, left);
    ShlBound(v, n, 24 - n + left);
    Pow2Monotone(24 + left, 32);
    Pow2At32();
    ShiftedWord(v, n, 8 - left, 24 - n + left);
  }
}
