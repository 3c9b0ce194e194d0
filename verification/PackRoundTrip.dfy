/** pack(1) and unpacking are inverse on every text whose length the header can hold. */
module PackRoundTrip {
  import opened Bits
  import opened Streams
  import opened PackFormat
  import opened PackCode
  import opened PackWriter

  // ----- the header is read back

  /** How many of the first n symbols have length 1 to k. */
  function Upto(len: seq<nat>, k: nat, n: nat): (r: nat)
    requires n <= |len|
    ensures r <= n
  {
    if n == 0 then 0 else Upto(len, k, n - 1) + if 1 <= len[n - 1] <= k then 1 else 0
  }

  lemma {:induction false} UptoStep(len: seq<nat>, k: nat, n: nat)
    requires n <= |len| && k > 0
    ensures Upto(len, k, n) == Upto(len, k - 1, n) + Rank(len, k, n)
  {
    if n > 0 {
      UptoStep(len, k, n - 1);
    }
  }

  lemma {:induction false} UptoZero(len: seq<nat>, n: nat)
    requires n <= |len|
    ensures Upto(len, 0, n) == 0
  {
    if n > 0 {
      UptoZero(len, n - 1);
    }
  }

  lemma {:induction false} SymbolsBounded(len: seq<nat>, k: nat)
    requires |len| == 257
    ensures |Symbols(len, k)| == Upto(len, k, 256) <= 256
  {
    if k == 0 {
      UptoZero(len, 256);
    } else {
      SymbolsBounded(len, k - 1);
      UptoStep(len, k, 256);
    }
  }

  lemma {:induction false} CountsFit(len: seq<nat>, i: nat, k: nat)
    requires |len| == 257 && 1 <= i <= k
    ensures Rank(len, i, 256) <= |Symbols(len, k)|
    decreases k
  {
    if i < k {
      CountsFit(len, i, k - 1);
    }
  }

  /** Stored in a byte each, the counts lose nothing but the last one's two. */
  lemma CountsStored(len: seq<nat>, i: nat)
    requires IsCode(len) && 1 <= i <= len[END]
    ensures if i == len[END] then 2 <= Count(len, i) <= 257 else Count(len, i) <= 255
  {
    var depth := len[END];
    NodesPairUp(len, depth);
    assert Count(len, depth) == Rank(len, depth, 256) + 1;
    SymbolsBounded(len, depth);
    if i < depth {
      CountsFit(len, i, depth - 1);
      assert |Symbols(len, depth)| == |Symbols(len, depth - 1)| + Rank(len, depth, 256);
      assert Count(len, i) == Rank(len, i, 256);
    }
  }

  lemma {:induction false} StoredAt(len: seq<nat>, depth: nat, i: nat)
    requires IsCode(len) && depth == len[END] && i <= depth
    ensures |StoredCounts(len, depth, i)| == i
    ensures forall j | 0 <= j < i ::
              StoredCounts(len, depth, i)[j] == Count(len, j + 1) - if j + 1 == depth then 2 else 0
  {
    if i > 0 {
      StoredAt(len, depth, i - 1);
      CountsStored(len, i);
    }
  }

  lemma NumberOfFour(w: nat, x: nat, y: nat, z: nat)
    requires w < 256 && x < 256 && y < 256 && z < 256
    ensures Number([w, x, y, z]) == 0x1000000 * w + 0x10000 * x + 0x100 * y + z
  {
    var b: seq<byte> := [w, x, y, z];
    assert b[..3][..2] == b[..2] && b[..2][..1] == b[..1];
    assert Number(b[..1]) == w;
    assert Number(b[..2]) == 256 * w + x;
    assert Number(b[..3]) == 256 * (256 * w + x) + y;
  }

  lemma DivideOn(n: nat)
    ensures n / 0x10000 == n / 0x100 / 0x100
    ensures n / 0x1000000 == n / 0x10000 / 0x100
    ensures n / 0x1_0000_0000 == n / 0x1000000 / 0x100
  {
  }

  lemma NumberBigEndian(n: nat)
    ensures Number(BigEndian(n)) == n % 0x1_0000_0000
  {
    var a, b, c, d := n / 0x100, n / 0x10000, n / 0x1000000, n / 0x1_0000_0000;
    DivideOn(n);
    NumberOfFour(c % 256, b % 256, a % 256, n % 256);
    assert c == 0x100 * d + c % 256;
    assert b == 0x100 * c + b % 256;
    assert a == 0x100 * b + a % 256;
  }

  lemma Layout(stored: seq<byte>, symbols: seq<byte>, text: seq<byte>, data: seq<byte>)
    requires data == stored + symbols + text
    ensures data[..|stored|] == stored && data[|stored|..|stored| + |symbols|] == symbols
    ensures data[|stored| + |symbols|..] == text
  {
  }

  lemma CountsReadBack(len: seq<nat>, stored: seq<byte>)
    requires IsCode(len) && stored == StoredCounts(len, len[END], len[END])
    ensures |stored| == len[END] && Leaves(stored) == LevelCounts(len, len[END])
    ensures Sum(stored, |stored|) + 1 == |Symbols(len, len[END])| <= 256
  {
    var depth := len[END];
    StoredAt(len, depth, depth);
    var counts := LevelCounts(len, depth);
    SymbolsCounted(len, depth);
    SumSame(stored, counts, depth - 1);
    SymbolsBounded(len, depth);
  }

  lemma TablesParse(len: seq<nat>, size: nat, text: seq<byte>, faulty: bool, data: seq<byte>)
    requires IsCode(len) && data == StoredCounts(len, len[END], len[END]) + Symbols(len, len[END]) + text
    ensures ParseTables(data, len[END], size, faulty) == Parsed(TablesOf(len, size), text)
  {
    var stored, symbols := StoredCounts(len, len[END], len[END]), Symbols(len, len[END]);
    CountsReadBack(len, stored);
    Layout(stored, symbols, text, data);
  }

  lemma HeaderParses(len: seq<nat>, size: nat, text: seq<byte>, faulty: bool)
    requires IsCode(len)
    ensures Parse(HeaderOf(len, len[END], size) + text, faulty)
         == Parsed(TablesOf(len, size % 0x1_0000_0000), text)
  {
    var depth := len[END];
    var head := [0x1f, 0x1e] + BigEndian(size) + [depth];
    var data := HeaderOf(len, depth, size) + text;
    var rest := StoredCounts(len, depth, depth) + Symbols(len, depth) + text;
    assert data == head + rest;
    assert data[7..] == rest && data[2..6] == BigEndian(size);
    assert data[0] == head[0] && data[1] == head[1] && data[6] == head[6] == depth;
    NumberBigEndian(size);
    TablesParse(len, size % 0x1_0000_0000, text, faulty, rest);
  }

  // ----- the text is read back

  lemma {:induction false} NodesFit(len: seq<nat>, i: nat)
    requires IsCode(len) && 1 <= i <= len[END]
    ensures Inner(len, len[END], i) + Count(len, i) <= Pow2(i)
  {
    NodesPairUp(len, i);
    if i > 1 {
      NodesFit(len, i - 1);
    }
  }

  lemma CodeFits(len: seq<nat>, c: nat)
    requires IsCode(len) && c <= END && 1 <= len[c]
    ensures CodeOf(len, len[END], c) < Pow2(len[c])
  {
    NodesFit(len, len[c]);
    RankStrict(len, c, |len|);
  }

  /** The text's code words and the end symbol's, to the end of a byte. */
  method PutText(input: seq<byte>, bits: array<nat>, length: array<nat>) returns (text: seq<byte>)
    requires length.Length == bits.Length == 257 && IsCode(length[..]) && Encodable(length[..], input)
    requires forall c | 0 <= c < 257 && 1 <= length[c] ::
               bits[c] == Shl(CodeOf(length[..], length[END], c), 24 - length[c])
    ensures exists pad :: pad < 8 && ByteBits(text) == Encode(length[..], input) + Zeros(pad)
  {
    ghost var len, done := length[..], [];
    text := [];
    var bitsleft: int := 8;
    for i := 0 to |input|
      invariant 0 <= bitsleft <= 8 && Holds(text, done, bitsleft)
      invariant Encode(len, input) == done + Encode(len, input[i..])
    {
      var c := input[i];
      CodeFits(len, c);
      text, bitsleft := PutWord(text, bitsleft, bits[c], length[c], CodeOf(len, len[END], c), done);
      ConcatAssociates(done, Word(len, c), Encode(len, input[i + 1..]));
      assert input[i..][1..] == input[i + 1..];
      done := done + Word(len, c);
    }
    CodeFits(len, END);
    assert Encode(len, input) == done + Word(len, END);
    text, bitsleft := PutWord(text, bitsleft, bits[END], length[END], CodeOf(len, len[END], END), done);
  }

  lemma LongerDiffers(o: Outcome, input: seq<byte>)
    requires input + [0] <= o.bytes
    ensures o.bytes != input
  {
    assert |o.bytes| >= |input| + 1;
  }

  lemma RunOfText(len: seq<nat>, size: nat, input: seq<byte>, text: seq<byte>, pad: nat, faulty: bool)
      returns (o: Outcome)
    requires IsCode(len) && Encodable(len, input) && ByteBits(text) == Encode(len, input) + Zeros(pad)
    ensures TablesOK(TablesOf(len, size)) && o == Run(TablesOf(len, size), ByteBits(text), 0, faulty)
    ensures o == Outcome(input, EndOfData) <==> |input| == size
  {
    TablesFit(len, size);
    o := Run(TablesOf(len, size), ByteBits(text), 0, faulty);
    DecodeEncode(len, size, input, Zeros(pad), 0, faulty);
    if |input| != size {
      LongerDiffers(o, input);
    }
  }

  lemma ContentsSized(data: seq<byte>, t: Tables, text: seq<byte>, input: seq<byte>, faulty: bool)
    requires Parse(data, faulty) == Parsed(t, text) && TablesOK(t) && t.size == |input| % 0x1_0000_0000
    requires Run(t, ByteBits(text), 0, faulty) == Outcome(input, EndOfData) <==> |input| == t.size
    ensures Contents(data, faulty) == Outcome(input, EndOfData) <==> |input| < 0x1_0000_0000
  {
  }

  /**
   A header of a code's tables and a text of the input's code words are unpacked to exactly the input
   if and only if the input's length fits the header's 32 bits.
   */
  lemma UnpackPacked(len: seq<nat>, input: seq<byte>, text: seq<byte>, pad: nat, faulty: bool)
    requires IsCode(len) && Encodable(len, input) && ByteBits(text) == Encode(len, input) + Zeros(pad)
    ensures Contents(HeaderOf(len, len[END], |input|) + text, faulty) == Outcome(input, EndOfData) <==>
            |input| < 0x1_0000_0000
  {
    var size := |input| % 0x1_0000_0000;
    var _ := RunOfText(len, size, input, text, pad, faulty);
    HeaderParses(len, |input|, text, faulty);
    ContentsSized(HeaderOf(len, len[END], |input|) + text, TablesOf(len, size), text, input, faulty);
  }

  /** What is read of an input of which some is missing: a part, taken for the whole exactly when it is. */
  predicate IsPart(o: Outcome, input: seq<byte>, faulty: bool) {
    o.bytes <= input && o.end == if faulty then ReadFailed else if o.bytes == input then EndOfData else Corrupt
  }

  /** A text of which some of the end is missing. */
  predicate CutShort(len: seq<nat>, input: seq<byte>, text: seq<byte>)
    requires |len| == 257
  {
    ByteBits(text) < Encode(len, input)
  }

  lemma RunOfCut(len: seq<nat>, size: nat, input: seq<byte>, text: seq<byte>, faulty: bool)
    requires IsCode(len) && Encodable(len, input) && CutShort(len, input, text) == true && size == |input|
    ensures TablesOK(TablesOf(len, size))
    ensures IsPart(Run(TablesOf(len, size), ByteBits(text), 0, faulty), input, faulty) == true
  {
    DecodeCut(len, size, input, ByteBits(text), 0, faulty);
  }

  lemma ContentsCut(data: seq<byte>, t: Tables, text: seq<byte>, input: seq<byte>, faulty: bool)
    requires Parse(data, faulty) == Parsed(t, text) && TablesOK(t)
    requires IsPart(Run(t, ByteBits(text), 0, faulty), input, faulty)
    ensures IsPart(Contents(data, faulty), input, faulty)
  {
  }

  /**
   A packed file that is cut short gives a part of the input, and says that it is the whole exactly when it is: when
   only the end symbol is missing.
   */
  lemma UnpackCut(len: seq<nat>, input: seq<byte>, text: seq<byte>, faulty: bool)
    requires IsCode(len) && Encodable(len, input) && |input| < 0x1_0000_0000
    requires CutShort(len, input, text) == true
    ensures IsPart(Contents(HeaderOf(len, len[END], |input|) + text, faulty), input, faulty) == true
  {
    var size := |input| % 0x1_0000_0000;
    RunOfCut(len, size, input, text, faulty);
    HeaderParses(len, |input|, text, faulty);
    ContentsCut(HeaderOf(len, len[END], |input|) + text, TablesOf(len, size), text, input, faulty);
  }

  /** Packs a text with a complete code in which the end symbol is deepest; unpacking is its inverse. */
  method Pack(input: seq<byte>, length: array<nat>) returns (out: seq<byte>)
    requires length.Length == 257 && IsCode(length[..]) && Encodable(length[..], input)
    ensures forall faulty :: Contents(out, faulty) == Outcome(input, EndOfData) <==> |input| < 0x1_0000_0000
  {
    ghost var len := length[..];
    var levcount, maxlev, ok := Levels(length);
    assert ok && maxlev == len[END];
    var bits := BitPatterns(length, maxlev);
    var header := Header(length, levcount, maxlev, |input|);
    var text := PutText(input, bits, length);
    out := header + text;
    ghost var pad :| pad < 8 && ByteBits(text) == Encode(len, input) + Zeros(pad);
    forall faulty ensures Contents(out, faulty) == Outcome(input, EndOfData) <==> |input| < 0x1_0000_0000 {
      UnpackPacked(len, input, text, pad, faulty);
    }
  }
}
