/** The pack(1) reader: level tables in arrays, and one bit at a time from the current byte. */
module PackReader {
  import opened Bits
  import opened Streams
  import opened PackFormat

  /** The last left bits of a byte, then the bits of the bytes after it. */
  function PendingBits(b: byte, left: nat, input: seq<byte>): (bits: seq<nat>)
    requires left <= 8
    ensures |bits| == left + 8 * |input|
    ensures Binary(bits)
  {
    BitsOf(b, 8)[8 - left..] + ByteBits(input)
  }

  lemma Reload(b: byte, input: seq<byte>)
    requires input != []
    ensures PendingBits(b, 0, input) == PendingBits(input[0], 8, input[1..])
  {
  }

  lemma TakeBit(b: byte, left: nat, input: seq<byte>)
    requires 0 < left <= 8
    ensures PendingBits(b, left, input)[0] == Bit(b, left - 1)
    ensures PendingBits(b, left, input)[1..] == PendingBits(b, left - 1, input)
  {
    assert BitsOf(b, 8)[8 - left] == Bit(b, left - 1);
  }

  lemma ShiftIn(code: nat, bit: nat)
    requires bit < 2
    ensures Or(Shl(code, 1), bit) == 2 * code + bit
  {
    assert Shl(code, 1) == 2 * Shl(code, 0);
    assert Pow2(1) == 2;
    OrDisjoint(bit, code, 1);
  }

  /** With the code at next and rest to come, what the walk from here finds. */
  ghost predicate Reached(t: Tables, level: nat, next: nat, goal: Found, rest: seq<nat>)
    requires TablesOK(t) && level < |t.symbolsIn|
  {
    var inodes, leaves := Inodes(t.symbolsIn, level), t.symbolsIn[level];
    && (next < inodes ==> AtNode(t, level + 1, next) && goal == FindLeaf(t, level + 1, next, rest))
    && (next > inodes + leaves ==> goal == BadIndex)
    && (inodes <= next <= inodes + leaves ==>
          var index := Sum(t.symbolsIn, level) + next - inodes; index < |t.symbol| && goal == Leaf(index, rest))
  }

  lemma WalkStep(t: Tables, level: nat, code: nat, bits: seq<nat>, next: nat, rest: seq<nat>)
    requires TablesOK(t) && AtNode(t, level, code) && bits != [] && Binary(bits)
    requires next == 2 * code + bits[0] && rest == bits[1..]
    ensures Reached(t, level, next, FindLeaf(t, level, code, bits), rest)
  {
    WalkStaysInside(t, level, code, bits);
  }

  class Reader {
    var input: seq<byte>    // not yet read
    const faulty: bool      // the input ends in a read error
    var err: Option<Error>  // sticky

    const treeLevels: nat        // deepest level, counting from 0
    const symbolsIn: array<nat>  // leaves at each level
    const inodesIn: array<nat>   // internal nodes at each level
    const symbol: array<byte>
    const symbolEOB: nat
    const tree: array<nat>       // index of each level's first symbol

    const uncompressedSize: nat
    var bytesOut: nat

    var thisLevel: nat
    var thisCode: nat
    var thisByte: byte
    var bitsLeft: nat        // bits of thisByte not yet used

    ghost const t: Tables

    ghost predicate TablesHold()
      reads symbolsIn, inodesIn, symbol, tree
    {
      && TablesOK(t)
      && treeLevels + 1 == |t.symbolsIn|
      && symbolsIn.Length == inodesIn.Length == tree.Length == MAX_LEVELS
      && (forall l {:trigger symbolsIn[l]} {:trigger inodesIn[l]} {:trigger tree[l]} | 0 <= l <= treeLevels ::
            && symbolsIn[l] == t.symbolsIn[l]
            && inodesIn[l] == Inodes(t.symbolsIn, l)
            && tree[l] == Sum(t.symbolsIn, l))
      && symbol[..] == t.symbol && symbolEOB == t.eob && uncompressedSize == t.size
    }

    /** The bits not yet decoded. */
    ghost function Pending(): (bits: seq<nat>)
      reads `input, `thisByte, `bitsLeft
      requires bitsLeft <= 8
      ensures Binary(bits)
    {
      PendingBits(thisByte, bitsLeft, input)
    }

    ghost predicate Valid()
      reads this, symbolsIn, inodesIn, symbol, tree
    {
      err.None? ==> TablesHold() && bitsLeft <= 8 && thisLevel == 0 && thisCode == 0
    }

    /** Everything this reader will still deliver. */
    ghost function Future(): Outcome
      reads this, symbolsIn, inodesIn, symbol, tree
      requires Valid()
    {
      if err.Some? then Outcome([], err.value) else Run(t, Pending(), bytesOut, faulty)
    }

    /** A reader with these tables, at the start of this text. */
    ghost predicate ReadsFrom(t: Tables, text: seq<byte>, faulty: bool)
      reads this, symbolsIn, inodesIn, symbol, tree
    {
      TablesOK(t) && Valid() && Future() == Run(t, ByteBits(text), 0, faulty)
    }

    constructor (input: seq<byte>, faulty: bool, treeLevels: nat, symbolsIn: array<nat>, inodesIn: array<nat>,
                 symbol: array<byte>, symbolEOB: nat, tree: array<nat>, uncompressedSize: nat, ghost t: Tables)
      requires TablesOK(t) && treeLevels + 1 == |t.symbolsIn|
      requires symbolsIn.Length == inodesIn.Length == tree.Length == MAX_LEVELS
      requires forall l {:trigger symbolsIn[l]} {:trigger inodesIn[l]} {:trigger tree[l]} | 0 <= l <= treeLevels ::
                 symbolsIn[l] == t.symbolsIn[l] && tree[l] == Sum(t.symbolsIn, l) &&
                     inodesIn[l] == Inodes(t.symbolsIn, l)
      requires symbol[..] == t.symbol && symbolEOB == t.eob && uncompressedSize == t.size
      ensures ReadsFrom(t, input, faulty)
    {
      this.input, this.faulty, this.err := input, faulty, None;
      this.treeLevels, this.symbolsIn, this.inodesIn := treeLevels, symbolsIn, inodesIn;
      this.symbol, this.symbolEOB, this.tree := symbol, symbolEOB, tree;
      this.uncompressedSize, this.bytesOut := uncompressedSize, 0;
      this.thisLevel, this.thisCode, this.thisByte, this.bitsLeft := 0, 0, 0, 0;
      this.t := t;
      new;
      assert Pending() == ByteBits(input);
    }

    /** Moves the next bit into thisCode, taking a new byte when the last is used up. */
    method NextBit() returns (more: bool)
      requires bitsLeft <= 8
      modifies `input, `thisByte, `bitsLeft, `thisCode
      ensures bitsLeft <= 8
      ensures more == (old(Pending()) != [])
      ensures more ==> thisCode == 2 * old(thisCode) + old(Pending())[0] && Pending() == old(Pending())[1..]
      ensures !more ==> thisCode == old(thisCode) && Pending() == []
    {
      if bitsLeft == 0 {
        if input == [] {
          return false;
        }
        Reload(thisByte, input);
        thisByte, bitsLeft, input := input[0], 8, input[1..];
      }
      TakeBit(thisByte, bitsLeft, input);
      bitsLeft := bitsLeft - 1;
      var bit := Low(Shr(thisByte, bitsLeft), 1);
      ShiftIn(thisCode, bit);
      thisCode := Or(Shl(thisCode, 1), bit);
      more := true;
    }

    /** One bit down the tree. The levels never run out, so the reader's second corruption exit is dead. */
    method Descend(ghost goal: Found) returns (thisSymbol: nat, found: bool, error: Option<Error>)
      requires TablesHold() && bitsLeft <= 8 && AtNode(t, thisLevel, thisCode)
      requires goal == FindLeaf(t, thisLevel, thisCode, Pending())
      modifies `input, `thisByte, `bitsLeft, `thisCode, `thisLevel
      ensures bitsLeft <= 8
      ensures error.None? || error == ErrorOf(goal)
      ensures error.None? && found ==> goal == Leaf(thisSymbol, Pending()) && thisSymbol < |t.symbol|
      ensures error.None? && !found ==> |Pending()| < old(|Pending()|)
      ensures error.None? && !found ==> AtNode(t, thisLevel, thisCode)
      ensures error.None? && !found ==> goal == FindLeaf(t, thisLevel, thisCode, Pending())
    {
      ghost var ahead, code := Pending(), thisCode;
      var more := NextBit();
      if !more {
        return 0, false,
            Some(if faulty then ReadFailed else if bytesOut != uncompressedSize then Corrupt else EndOfData);
      }
      WalkStep(t, thisLevel, code, ahead, thisCode, Pending());
      thisSymbol, found, error := Classify(goal, Pending());
    }

    /** Looks up the code reached: an internal node, a leaf, or none of this level's. */
    method Classify(ghost goal: Found, ghost rest: seq<nat>)
        returns (thisSymbol: nat, found: bool, error: Option<Error>)
      requires TablesHold() && thisLevel < |t.symbolsIn| && Reached(t, thisLevel, thisCode, goal, rest)
      modifies `thisLevel
      ensures error.None? || error == ErrorOf(goal)
      ensures error.None? && found ==> goal == Leaf(thisSymbol, rest) && thisSymbol < |t.symbol|
      ensures error.None? && !found ==> AtNode(t, thisLevel, thisCode) && goal == FindLeaf(t, thisLevel, thisCode, rest)
    {
      if thisCode >= inodesIn[thisLevel] {
        var inLevelIndex := thisCode - inodesIn[thisLevel];
        if inLevelIndex > symbolsIn[thisLevel] {
          return 0, false, Some(Corrupt);
        }
        return tree[thisLevel] + inLevelIndex, true, None;
      }
      thisLevel := thisLevel + 1;
      if thisLevel > treeLevels {
        assert false;
      }
      return 0, false, None;
    }

    /** What a failed walk reports. */
    ghost function ErrorOf(f: Found): Option<Error>
      reads `bytesOut
    {
      match f
      case Leaf(_, _) => None
      case OutOfBits => Some(if faulty then ReadFailed else if bytesOut != uncompressedSize then Corrupt else EndOfData)
      case _ => Some(Corrupt)
    }

    /** Walks the tree to a leaf. */
    method Walk(ghost goal: Found) returns (thisSymbol: nat, error: Option<Error>)
      requires TablesHold() && bitsLeft <= 8 && thisLevel == 0 && thisCode == 0 && goal == FindLeaf(t, 0, 0, Pending())
      modifies `input, `thisByte, `bitsLeft, `thisCode, `thisLevel
      ensures bitsLeft <= 8
      ensures error == ErrorOf(goal)
      ensures error.None? ==> thisSymbol < |t.symbol| && goal == Leaf(thisSymbol, Pending())
    {
      var found := false;
      thisSymbol, error := 0, None;
      while !found && error.None?
        invariant bitsLeft <= 8
        invariant error.None? || error == ErrorOf(goal)
        invariant found && error.None? ==> thisSymbol < |t.symbol| && goal == Leaf(thisSymbol, Pending())
        invariant !found && error.None? ==> AtNode(t, thisLevel, thisCode)
        invariant !found && error.None? ==> goal == FindLeaf(t, thisLevel, thisCode, Pending())
        decreases !found && error.None?, |Pending()|
      {
        thisSymbol, found, error := Descend(goal);
      }
    }

    /** Decodes one byte, or finds the end. */
    method Decode() returns (b: byte, error: Option<Error>)
      requires Valid() && err.None?
      modifies `input, `thisByte, `bitsLeft, `thisCode, `thisLevel, `bytesOut
      ensures error.Some? ==> old(Future()) == Outcome([], error.value)
      ensures error.None? ==> Valid() && old(Future()) == Prepend([b], Future())
    {
      var thisSymbol;
      thisSymbol, error := Walk(FindLeaf(t, 0, 0, Pending()));
      b := 0;
      if error.Some? {
        return;
      }
      if thisSymbol == symbolEOB && bytesOut == uncompressedSize {
        return 0, Some(EndOfData);
      }
      bytesOut := bytesOut + 1;
      thisLevel, thisCode := 0, 0;
      b := symbol[thisSymbol];
      assert symbol[..][thisSymbol] == b;
    }

    /** Fills p until it is full or the file has ended. */
    method Fill(p: array<byte>) returns (n: nat, ghost done: seq<byte>)
      requires Valid() && p != symbol
      requires p as object !in {symbolsIn, inodesIn, tree}
      modifies this, p
      ensures Valid() && Filled(p, n, done)
      ensures old(Future()) == Prepend(done, Future())
      ensures n < p.Length ==> err.Some?
    {
      n, done := 0, [];
      while n < p.Length && err.None?
        invariant Valid() && Filled(p, n, done)
        invariant old(Future()) == Prepend(done, Future())
        decreases p.Length - n, err.None?
      {
        var b;
        b, err := Decode();
        if err.None? {
          PrependTwice(done, [b], Future());
          p[n] := b;
          n, done := n + 1, done + [b];
        }
      }
    }

    /**
     Reads the file into p. What was to come is what was read and what is still to come, however the
     reads cut it; the file's end is reported once nothing is left.
     */
    method Read(p: array<byte>) returns (n: nat, error: Option<Error>)
      requires Valid() && p != symbol
      requires p as object !in {symbolsIn, inodesIn, tree}
      modifies this, p
      ensures Valid() && n <= p.Length
      ensures old(Future()) == Prepend(p[..n], Future())
      ensures n < p.Length ==> err.Some? && Future() == Outcome([], err.value)
      ensures error == if n == 0 then err else None
    {
      ghost var done;
      n, done := Fill(p);
      assert done == p[..n];
      error := if n > 0 then None else err;
    }
  }

  // ----- opening a file

  /** The big-endian length, a byte at a time. */
  method ReadLength(data: seq<byte>) returns (size: nat)
    requires |data| >= 6
    ensures size == Number(data[2..6])
  {
    size := 0;
    for i := 2 to 6
      invariant size == Number(data[2..i])
    {
      assert data[i] < Pow2(8) by { Pow2Values(); }
      OrDisjoint(data[i], size, 8);
      ShlByte(size);
      assert data[2..i + 1][..i - 2] == data[2..i];
      size := Or(Shl(size, 8), data[i]);
    }
  }

  lemma ShlByte(x: nat)
    ensures Shl(x, 8) == 256 * x
  {
    assert Shl(x, 8) == 2 * Shl(x, 7) == 4 * Shl(x, 6) == 8 * Shl(x, 5) == 16 * Shl(x, 4);
    assert Shl(x, 4) == 2 * Shl(x, 3) == 4 * Shl(x, 2) == 8 * Shl(x, 1) == 16 * Shl(x, 0);
  }

  /** The leaf counts of the levels, as stored. */
  method ReadCounts(data: seq<byte>, levels: nat) returns (symbolsIn: array<nat>, symbolSize: nat, ok: bool)
    requires 1 <= levels <= MAX_LEVELS
    ensures fresh(symbolsIn) && symbolsIn.Length == MAX_LEVELS
    ensures ok == (|data| >= levels)
    ensures ok ==> (forall i | 0 <= i < levels :: symbolsIn[i] == data[i])
    ensures ok ==> symbolSize == 1 + Sum(data[..levels], levels)
  {
    symbolsIn := new nat[MAX_LEVELS](_ => 0);
    symbolSize, ok := 1, true;
    for i := 0 to levels
      invariant |data| >= i
      invariant forall j | 0 <= j < i :: symbolsIn[j] == data[j]
      invariant symbolSize == 1 + Sum(data, i)
    {
      if |data| == i {
        ok := false;
        return;
      }
      symbolsIn[i] := data[i];
      symbolSize := symbolSize + symbolsIn[i];
    }
    SumSame(data, data[..levels], levels);
  }

  /** The symbols level by level, and where each level starts. */
  method ReadSymbols(data: seq<byte>, symbolsIn: array<nat>, levels: nat, symbolSize: nat)
    returns (symbol: array<byte>, tree: array<nat>, symbolEOB: nat, ok: bool)
    requires symbolsIn.Length == MAX_LEVELS && 1 <= levels <= MAX_LEVELS && Sum(symbolsIn[..], levels) == symbolSize
    ensures fresh(symbol) && fresh(tree) && tree.Length == MAX_LEVELS
    ensures ok == (|data| >= symbolSize)
    ensures ok ==> symbolEOB == symbolSize && symbol[..] == data[..symbolSize] + [0]
    ensures ok ==> forall l {:trigger tree[l]} | 0 <= l < levels :: tree[l] == Sum(symbolsIn[..], l)
  {
    symbol := new byte[symbolSize + 1](_ => 0);
    tree := new nat[MAX_LEVELS](_ => 0);
    symbolEOB, ok := 0, true;
    ghost var counts := symbolsIn[..];
    for i := 0 to levels
      invariant counts == symbolsIn[..] && symbolEOB == Sum(counts, i) <= symbolSize && symbolEOB <= |data|
      invariant forall l {:trigger tree[l]} | 0 <= l < i :: tree[l] == Sum(counts, l)
      invariant symbol[..] == data[..symbolEOB] + Blank(symbolSize + 1 - symbolEOB)
    {
      tree[i] := symbolEOB;
      SumMonotone(counts, i + 1, levels);
      for j := 0 to symbolsIn[i]
        invariant counts == symbolsIn[..] && symbolEOB == Sum(counts, i) + j <= |data|
        invariant forall l {:trigger tree[l]} | 0 <= l <= i :: tree[l] == Sum(counts, l)
        invariant symbol[..] == data[..symbolEOB] + Blank(symbolSize + 1 - symbolEOB)
      {
        if |data| == symbolEOB {
          ok := false;
          return;
        }
        symbol[symbolEOB] := data[symbolEOB];
        symbolEOB := symbolEOB + 1;
      }
    }
  }

  function Blank(n: nat): seq<byte> {
    seq(n, _ => 0)
  }

  /** Internal nodes from the deepest level up. */
  method CountInodes(symbolsIn: array<nat>, treeLevels: nat) returns (inodesIn: array<nat>)
    requires symbolsIn.Length == MAX_LEVELS && treeLevels < MAX_LEVELS
    ensures fresh(inodesIn) && inodesIn.Length == MAX_LEVELS
    ensures forall l {:trigger inodesIn[l]} | 0 <= l <= treeLevels ::
            inodesIn[l] == Inodes(symbolsIn[..treeLevels + 1], l)
  {
    inodesIn := new nat[MAX_LEVELS](_ => 0);
    ghost var counts := symbolsIn[..treeLevels + 1];
    for level := treeLevels downto 0
      invariant counts == symbolsIn[..treeLevels + 1]
      invariant forall l {:trigger inodesIn[l]} | level <= l <= treeLevels :: inodesIn[l] == Inodes(counts, l)
    {
      inodesIn[level] := (inodesIn[level + 1] + symbolsIn[level + 1]) / 2;
    }
  }

  /**
   The tables once the stored counts are known: one leaf of the last level was not counted, and one is the end symbol.
   */
  method BuildTables(data: seq<byte>, symbolsIn: array<nat>, levels: nat, symbolSize: nat, ghost stored: seq<byte>)
    returns (symbol: array<byte>, tree: array<nat>, symbolEOB: nat, inodesIn: array<nat>, ok: bool)
    requires symbolsIn.Length == MAX_LEVELS && 1 <= levels == |stored| <= MAX_LEVELS
    requires forall i | 0 <= i < levels :: symbolsIn[i] == stored[i]
    requires symbolSize == Sum(stored, levels) + 1
    modifies symbolsIn
    ensures fresh(symbol) && fresh(tree) && fresh(inodesIn) && tree.Length == inodesIn.Length == MAX_LEVELS
    ensures ok == (|data| >= symbolSize)
    ensures ok ==> symbolEOB == symbolSize && symbol[..] == data[..symbolSize] + [0]
    ensures ok ==> forall l | 0 <= l < levels ::
              symbolsIn[l] == Leaves(stored)[l] && tree[l] == Sum(Leaves(stored), l) &&
                  inodesIn[l] == Inodes(Leaves(stored), l)
  {
    var treeLevels := levels - 1;
    symbolsIn[treeLevels] := symbolsIn[treeLevels] + 1;
    ghost var transmitted := symbolsIn[..];
    SumSame(transmitted, stored, treeLevels);
    symbol, tree, symbolEOB, ok := ReadSymbols(data, symbolsIn, levels, symbolSize);
    symbolsIn[treeLevels] := symbolsIn[treeLevels] + 1;
    inodesIn := CountInodes(symbolsIn, treeLevels);
    assert symbolsIn[..levels] == Leaves(stored);
    forall l | 0 <= l < levels ensures Sum(transmitted, l) == Sum(Leaves(stored), l) {
      SumSame(transmitted, Leaves(stored), l);
    }
  }

  /** The tables of a file, and a reader at the start of its text. */
  method ReadTables(data: seq<byte>, levels: nat, size: nat, faulty: bool) returns (z: Reader?, error: Option<Error>)
    requires 1 <= levels <= MAX_LEVELS
    ensures match ParseTables(data, levels, size, faulty)
            case Rejected(e) => error == Some(e)
            case Parsed(t, text) => error.None? && z != null && fresh(z) && z.ReadsFrom(t, text, faulty)
  {
    var short := Some(if faulty then ReadFailed else Corrupt);
    var symbolsIn, symbolSize, ok := ReadCounts(data, levels);
    if !ok {
      return null, short;
    }
    if symbolSize > 256 {
      return null, Some(Corrupt);
    }
    var symbol, tree, symbolEOB, inodesIn;
    symbol, tree, symbolEOB, inodesIn, ok := BuildTables(data[levels..], symbolsIn, levels, symbolSize, data[..levels]);
    if !ok {
      return null, short;
    }
    ghost var t := ParseTables(data, levels, size, faulty).tables;
    assert t == Tables(Leaves(data[..levels]), symbol[..], symbolEOB, size);
    var text := data[levels + symbolSize..];
    assert ParseTables(data, levels, size, faulty) == Parsed(t, text);
    z := new Reader(text, faulty, levels - 1, symbolsIn, inodesIn, symbol, symbolEOB, tree, size, t);
    error := None;
  }

  /** Reads the header and the tables; the text is left for Read. */
  method NewReader(data: seq<byte>, faulty: bool) returns (z: Reader?, error: Option<Error>)
    ensures match Parse(data, faulty)
            case Rejected(e) => error == Some(e)
            case Parsed(t, text) => error.None? && z != null && fresh(z) && z.ReadsFrom(t, text, faulty)
  {
    if |data| < 7 {
      return null, Some(if faulty then ReadFailed else Corrupt);
    }
    if data[0] != 0x1f || data[1] != 0x1e {
      return null, Some(Corrupt);
    }
    var size := ReadLength(data);
    var levels: nat := data[6];
    if levels > MAX_LEVELS || levels < 1 {
      return null, Some(Corrupt);
    }
    z, error := ReadTables(data[7..], levels, size, faulty);
  }

  /** Reads on with buffers of the given sizes until one reports the end. */
  method ReadOn(z: Reader, sizes: seq<nat>) returns (out: seq<byte>, error: Option<Error>)
    requires z.Valid()
    modifies z
    ensures z.Valid() && old(z.Future()) == Prepend(out, z.Future())
    ensures error.Some? ==> z.Future() == Outcome([], error.value)
    ensures error.None? && z.Future().bytes != [] ==> |out| == Sum(sizes, |sizes|)
    decreases |sizes|
  {
    out, error := [], None;
    if sizes != [] {
      var last := |sizes| - 1;
      out, error := ReadOn(z, sizes[..last]);
      if error.None? {
        var p := new byte[sizes[last]](_ => 0);
        var n;
        n, error := z.Read(p);
        PrependTwice(out, p[..n], z.Future());
        out := out + p[..n];
        SumSame(sizes, sizes[..last], last);
      }
    }
  }

  /** Whatever the sizes of the buffers it is read with, a packed file gives its contents in order, then its end. */
  method ReadFile(data: seq<byte>, faulty: bool, sizes: seq<nat>) returns (out: seq<byte>, error: Option<Error>)
    ensures out <= Contents(data, faulty).bytes
    ensures error.Some? ==> Contents(data, faulty) == Outcome(out, error.value)
    ensures error.None? && out != Contents(data, faulty).bytes ==> |out| == Sum(sizes, |sizes|)
  {
    var z;
    z, error := NewReader(data, faulty);
    out := [];
    if error.None? {
      out, error := ReadOn(z, sizes);
      assert out + [] == out;
    }
  }
}
