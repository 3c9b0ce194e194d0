/** The code pack(1) assigns to a set of code lengths, and why the level counts alone let a reader recover it. */
module PackCode {
  import opened Bits
  import opened Streams
  import opened PackFormat

  const END := 256

  /** How many of the first n symbols have length i. */
  function Rank(len: seq<nat>, i: nat, n: nat): (r: nat)
    requires n <= |len|
    ensures r <= n
  {
    if n == 0 then 0 else Rank(len, i, n - 1) + if len[n - 1] == i then 1 else 0
  }

  function Count(len: seq<nat>, i: nat): nat {
    Rank(len, i, |len|)
  }

  /** Internal nodes of depth i when no code is longer than depth: half of everything one level down. */
  function Inner(len: seq<nat>, depth: nat, i: nat): nat
    decreases depth - i
  {
    if i >= depth then 0 else (Inner(len, depth, i + 1) + Count(len, i + 1)) / 2
  }

  /** A symbol's code: at each depth the internal nodes come first, then the leaves in symbol order. */
  function CodeOf(len: seq<nat>, depth: nat, c: nat): nat
    requires c < |len|
  {
    Inner(len, depth, len[c]) + Rank(len, len[c], c)
  }

  /** The sum of 2^-length over the first n symbols present, in units of 2^-24. */
  function Weight(len: seq<nat>, n: nat): nat
    requires n <= |len| && forall c | 0 <= c < |len| :: len[c] <= 24
  {
    if n == 0 then 0 else Weight(len, n - 1) + if len[n - 1] == 0 then 0 else Shl(1, 24 - len[n - 1])
  }

  /** Lengths of a complete code (Kraft's sum is one) in which no code is longer than the end symbol's. */
  predicate IsCode(len: seq<nat>) {
    && |len| == 257
    && 1 <= len[END]
    && (forall c | 0 <= c < |len| :: len[c] <= len[END] <= 24)
    && Weight(len, |len|) == Shl(1, 24)
  }

  // ----- a complete code's nodes pair up

  /** The weight of the first n symbols of length i or more. */
  function Above(len: seq<nat>, i: nat, n: nat): nat
    requires n <= |len| && forall c | 0 <= c < |len| :: len[c] <= 24
  {
    if n == 0 then 0 else Above(len, i, n - 1) + if len[n - 1] < i then 0 else Shl(1, 24 - len[n - 1])
  }

  /** The weight of the shorter ones, in units of the length just below i. */
  function Units(len: seq<nat>, i: nat, n: nat): nat
    requires n <= |len|
  {
    if n == 0 then 0
    else Units(len, i, n - 1) + if 1 <= len[n - 1] < i then Shl(1, i - 1 - len[n - 1]) else 0
  }

  lemma {:induction false} WeightSplits(len: seq<nat>, i: nat, n: nat)
    requires n <= |len| && forall c | 0 <= c < |len| :: len[c] <= 24
    requires 1 <= i <= 24
    ensures Weight(len, n) == Above(len, i, n) + Shl(Units(len, i, n), 25 - i)
  {
    if n == 0 {
      ShlZero(25 - i);
    } else {
      WeightSplits(len, i, n - 1);
      var l := len[n - 1];
      if 1 <= l < i {
        ShlAdd(Units(len, i, n - 1), Shl(1, i - 1 - l), 25 - i);
        ShlShl(1, i - 1 - l, 25 - i);
      }
    }
  }

  lemma {:induction false} ShlZero(k: nat)
    ensures Shl(0, k) == 0
  {
    if k > 0 {
      ShlZero(k - 1);
    }
  }

  lemma {:induction false} AboveStep(len: seq<nat>, i: nat, n: nat)
    requires n <= |len| && forall c | 0 <= c < |len| :: len[c] <= 24
    requires i <= 24
    ensures Above(len, i, n) == Above(len, i + 1, n) + Shl(Rank(len, i, n), 24 - i)
  {
    if n == 0 {
      ShlZero(24 - i);
    } else {
      AboveStep(len, i, n - 1);
      ShlAdd(Rank(len, i, n - 1), 1, 24 - i);
    }
  }

  lemma {:induction false} NoneAbove(len: seq<nat>, i: nat, n: nat)
    requires n <= |len| && forall c | 0 <= c < |len| :: len[c] <= 24 && len[c] < i
    ensures Above(len, i, n) == 0
  {
    if n > 0 {
      NoneAbove(len, i, n - 1);
    }
  }

  lemma WeightInUnits(len: seq<nat>, i: nat, nodes: nat, units: nat, k: nat)
    requires IsCode(len) && 1 <= i <= 24 && k == 24 - i
    requires Above(len, i, |len|) == Shl(nodes, k) && units == Units(len, i, |len|)
    ensures Shl(nodes + Shl(units, 1), k) == Shl(Shl(1, i), k)
  {
    ShlAdd(nodes, Shl(units, 1), k);
    ShlShl(units, 1, k);
    WeightSplits(len, i, |len|);
    ShlShl(1, i, k);
  }

  lemma CancelUnits(nodes: nat, units: nat, i: nat, k: nat)
    requires 1 <= i && Shl(nodes + Shl(units, 1), k) == Shl(Shl(1, i), k)
    ensures nodes % 2 == 0 && (i == 1 && units == 0 ==> nodes == 2)
  {
    ShlInjective(nodes + Shl(units, 1), Shl(1, i), k);
    assert Shl(units, 1) == 2 * Shl(units, 0);
    assert nodes == 2 * (Shl(1, i - 1) - units);
  }

  /** Whatever makes up the rest of a complete code's weight, the nodes of a depth come in pairs. */
  lemma EvenNodes(len: seq<nat>, i: nat, nodes: nat)
    requires IsCode(len) && 1 <= i <= 24 && Above(len, i, |len|) == Shl(nodes, 24 - i)
    ensures nodes % 2 == 0 && (i == 1 ==> nodes == 2)
  {
    var units := Units(len, i, |len|);
    var k := 24 - i;
    if i == 1 {
      NoUnits(len, |len|);
    }
    WeightInUnits(len, i, nodes, units, k);
    CancelUnits(nodes, units, i, k);
  }

  /** Everything at a depth is the children of the internal nodes one level up. */
  lemma {:induction false} NodesPairUp(len: seq<nat>, i: nat)
    requires IsCode(len) && 1 <= i <= len[END]
    ensures Above(len, i, |len|) == Shl(Inner(len, len[END], i) + Count(len, i), 24 - i)
    ensures Inner(len, len[END], i) + Count(len, i) == if i == 1 then 2 else 2 * Inner(len, len[END], i - 1)
    decreases len[END] - i
  {
    var depth := len[END];
    var inner, leaves := Inner(len, depth, i), Count(len, i);
    AboveStep(len, i, |len|);
    if i == depth {
      NoneAbove(len, i + 1, |len|);
    } else {
      NodesPairUp(len, i + 1);
      ShlShl(inner, 1, 24 - (i + 1));
      assert Shl(inner, 1) == 2 * Shl(inner, 0);
      ShlAdd(inner, leaves, 24 - i);
    }
    EvenNodes(len, i, inner + leaves);
    assert i > 1 ==> Inner(len, depth, i - 1) == (inner + leaves) / 2;
  }

  lemma {:induction false} NoUnits(len: seq<nat>, n: nat)
    requires n <= |len|
    ensures Units(len, 1, n) == 0
  {
    if n > 0 {
      NoUnits(len, n - 1);
    }
  }

  // ----- the tables a reader gets

  function LevelCounts(len: seq<nat>, depth: nat): (s: seq<nat>) {
    seq(depth, l requires 0 <= l < depth => Count(len, l + 1))
  }

  /** The symbols below n of length i, in order. */
  function LevelSymbols(len: seq<nat>, i: nat, n: nat): (s: seq<byte>)
    requires n <= |len| && n <= 256
    ensures |s| == Rank(len, i, n)
  {
    if n == 0 then [] else LevelSymbols(len, i, n - 1) + if len[n - 1] == i then [n - 1] else []
  }

  /** The symbols of length 1 to i, shortest first. */
  function Symbols(len: seq<nat>, i: nat): (s: seq<byte>)
    requires |len| == 257
  {
    if i == 0 then [] else Symbols(len, i - 1) + LevelSymbols(len, i, 256)
  }

  function TablesOf(len: seq<nat>, size: nat): Tables
    requires |len| == 257
  {
    var s := Symbols(len, len[END]);
    Tables(LevelCounts(len, len[END]), s + [0], |s|, size)
  }

  lemma {:induction false} SymbolsCounted(len: seq<nat>, i: nat)
    requires IsCode(len) && i <= len[END]
    ensures Sum(LevelCounts(len, len[END]), i) == |Symbols(len, i)| + if i == len[END] then 1 else 0
  {
    if i > 0 {
      SymbolsCounted(len, i - 1);
      var counts := LevelCounts(len, len[END]);
      assert counts[i - 1] == Count(len, i) == Rank(len, i, 256) + if i == len[END] then 1 else 0;
    }
  }

  lemma TablesFit(len: seq<nat>, size: nat)
    requires IsCode(len)
    ensures TablesOK(TablesOf(len, size))
  {
    var depth := len[END];
    var counts := LevelCounts(len, depth);
    SymbolsCounted(len, depth);
    NodesPairUp(len, depth);
    assert counts[depth - 1] == Count(len, depth) >= 1;
  }

  lemma {:induction false} InodesAgree(len: seq<nat>, l: nat)
    requires |len| == 257 && l < len[END]
    ensures Inodes(LevelCounts(len, len[END]), l) == Inner(len, len[END], l + 1)
    decreases len[END] - l
  {
    if l + 1 < len[END] {
      InodesAgree(len, l + 1);
    }
  }

  // ----- every code word is found

  function Word(len: seq<nat>, c: nat): (w: seq<nat>)
    requires |len| == 257 && c < |len|
  {
    BitsOf(CodeOf(len, len[END], c), len[c])
  }

  /** The place in the symbol table of the leaf a code word names. */
  function IndexOf(len: seq<nat>, c: nat): nat
    requires |len| == 257 && c < |len| && 1 <= len[c] <= len[END]
  {
    Sum(LevelCounts(len, len[END]), len[c] - 1) + Rank(len, len[c], c)
  }

  /** The last bit of a node of depth n: an internal node is walked on from, a leaf is found. */
  lemma LastBit(len: seq<nat>, size: nat, v: nat, n: nat, rest: seq<nat>)
    requires |len| == 257 && 1 <= n <= len[END]
    requires TablesOK(TablesOf(len, size)) && v < Inner(len, len[END], n) + Count(len, n)
    ensures FindLeaf(TablesOf(len, size), n - 1, v / 2, [v % 2] + rest)
         == if v < Inner(len, len[END], n) then FindLeaf(TablesOf(len, size), n, v, rest)
            else Leaf(Sum(LevelCounts(len, len[END]), n - 1) + (v - Inner(len, len[END], n)), rest)
  {
    InodesAgree(len, n - 1);
    assert ([v % 2] + rest)[1..] == rest;
  }

  /** The bits of an internal node of depth n lead a reader to that node. */
  lemma {:induction false} WalkToNode(len: seq<nat>, size: nat, v: nat, n: nat, rest: seq<nat>)
    requires IsCode(len) && n < len[END] && (if n == 0 then v == 0 else v < Inner(len, len[END], n))
    requires TablesOK(TablesOf(len, size))
    ensures FindLeaf(TablesOf(len, size), 0, 0, BitsOf(v, n) + rest) == FindLeaf(TablesOf(len, size), n, v, rest)
    decreases n
  {
    if n == 0 {
      assert BitsOf(v, n) + rest == rest;
    } else {
      NodesPairUp(len, n);
      BitsOfLast(v, n - 1);
      assert BitsOf(v, n) + rest == BitsOf(v / 2, n - 1) + ([v % 2] + rest);
      WalkToNode(len, size, v / 2, n - 1, [v % 2] + rest);
      LastBit(len, size, v, n, rest);
    }
  }

  lemma {:induction false} RankStrict(len: seq<nat>, c: nat, n: nat)
    requires c < n <= |len|
    ensures Rank(len, len[c], c) < Rank(len, len[c], n)
  {
    if c + 1 < n {
      RankStrict(len, c, n - 1);
    }
  }

  /** A reader finds the leaf of a code word, whatever follows it. */
  lemma WordFound(len: seq<nat>, size: nat, c: nat, rest: seq<nat>)
    requires IsCode(len) && c <= END && 1 <= len[c]
    ensures TablesOK(TablesOf(len, size))
    ensures FindLeaf(TablesOf(len, size), 0, 0, Word(len, c) + rest) == Leaf(IndexOf(len, c), rest)
  {
    TablesFit(len, size);
    var n, v := len[c], CodeOf(len, len[END], c);
    NodesPairUp(len, n);
    RankStrict(len, c, |len|);
    BitsOfLast(v, n - 1);
    assert Word(len, c) + rest == BitsOf(v / 2, n - 1) + ([v % 2] + rest);
    WalkToNode(len, size, v / 2, n - 1, [v % 2] + rest);
    LastBit(len, size, v, n, rest);
  }

  // ----- and is its own symbol's

  lemma {:induction false} LevelSymbolAt(len: seq<nat>, c: nat, n: nat)
    requires c < n <= 256 <= |len|
    ensures Rank(len, len[c], c) < Rank(len, len[c], n)
    ensures LevelSymbols(len, len[c], n)[Rank(len, len[c], c)] == c
  {
    RankStrict(len, c, n);
    if c + 1 < n {
      RankStrict(len, c, n - 1);
      LevelSymbolAt(len, c, n - 1);
    }
  }

  lemma {:induction false} SymbolsPrefix(len: seq<nat>, i: nat, j: nat)
    requires |len| == 257 && i <= j
    ensures Symbols(len, i) <= Symbols(len, j)
    decreases j
  {
    if i < j {
      SymbolsPrefix(len, i, j - 1);
    }
  }

  /** The table holds each symbol where its code word points, and the end symbol's place is the last. */
  lemma SymbolFound(len: seq<nat>, size: nat, c: nat)
    requires IsCode(len) && c <= END && 1 <= len[c]
    ensures var t := TablesOf(len, size);
      && IndexOf(len, c) < |t.symbol|
      && (IndexOf(len, c) == t.eob <==> c == END)
      && (c < END ==> t.symbol[IndexOf(len, c)] == c)
  {
    var n, depth := len[c], len[END];
    var s := Symbols(len, depth);
    SymbolsCounted(len, n - 1);
    if c < END {
      LevelSymbolAt(len, c, 256);
      SymbolsPrefix(len, n, depth);
      assert Symbols(len, n) == Symbols(len, n - 1) + LevelSymbols(len, n, 256);
      assert Symbols(len, n)[IndexOf(len, c)] == c;
    } else {
      assert s == Symbols(len, depth - 1) + LevelSymbols(len, depth, 256);
    }
  }

  /** No code word begins another's. */
  lemma PrefixFree(len: seq<nat>, c: nat, d: nat)
    requires IsCode(len) && c <= END && d <= END && 1 <= len[c] && 1 <= len[d]
    requires Word(len, c) <= Word(len, d)
    ensures c == d
  {
    var rest := Word(len, d)[len[c]..];
    assert Word(len, d) + [] == Word(len, c) + rest;
    WordFound(len, 0, c, rest);
    WordFound(len, 0, d, []);
    SymbolFound(len, 0, c);
    SymbolFound(len, 0, d);
  }

  // ----- whole texts

  predicate Encodable(len: seq<nat>, text: seq<byte>) {
    |len| == 257 && forall i | 0 <= i < |text| :: 1 <= len[text[i]]
  }

  /** The code words of a text, then the end symbol's. */
  function Encode(len: seq<nat>, text: seq<byte>): (bits: seq<nat>)
    requires |len| == 257
    ensures Binary(bits)
  {
    if text == [] then Word(len, END) else Word(len, text[0]) + Encode(len, text[1..])
  }

  /** One symbol of a run over a complete code. */
  lemma RunWord(len: seq<nat>, t: Tables, c: nat, rest: seq<nat>, done: nat, faulty: bool)
    requires IsCode(len) && c <= END && 1 <= len[c] && t == TablesOf(len, t.size) && TablesOK(t)
    requires Binary(rest)
    ensures Run(t, Word(len, c) + rest, done, faulty) ==
              if c == END && done == t.size then Outcome([], EndOfData)
              else Prepend([if c == END then 0 else c], Run(t, rest, done + 1, faulty))
  {
    WordFound(len, t.size, c, rest);
    SymbolFound(len, t.size, c);
  }

  /**
   Reading a text's code words, whatever pads them, gives the text and the end of data; unless the
   stored length is not the text's, when the end symbol is taken for a byte.
   */
  lemma {:induction false} DecodeEncode(len: seq<nat>, size: nat, text: seq<byte>, pad: seq<nat>, done: nat,
      faulty: bool)
    requires IsCode(len) && Encodable(len, text)
    requires Binary(pad)
    ensures TablesOK(TablesOf(len, size))
    ensures var o := Run(TablesOf(len, size), Encode(len, text) + pad, done, faulty);
      if done + |text| == size then o == Outcome(text, EndOfData) else text + [0] <= o.bytes
    decreases |text|
  {
    TablesFit(len, size);
    var t := TablesOf(len, size);
    if text == [] {
      RunWord(len, t, END, pad, done, faulty);
    } else {
      var rest := Encode(len, text[1..]) + pad;
      DecodeEncode(len, size, text[1..], pad, done + 1, faulty);
      assert Encode(len, text) + pad == Word(len, text[0]) + rest;
      RunWord(len, t, text[0], rest, done, faulty);
      assert text == [text[0]] + text[1..];
    }
  }

  // ----- texts cut short

  /** A walk that has come to its end is the same whatever follows. */
  lemma {:induction false} WalkGoesOn(t: Tables, level: nat, code: nat, bits: seq<nat>, more: seq<nat>)
    requires TablesOK(t) && !FindLeaf(t, level, code, bits).OutOfBits?
    ensures FindLeaf(t, level, code, bits + more) ==
              match FindLeaf(t, level, code, bits)
              case Leaf(index, rest) => Leaf(index, rest + more)
              case other => other
    decreases |bits|
  {
    if level < |t.symbolsIn| {
      assert (bits + more)[0] == bits[0] && (bits + more)[1..] == bits[1..] + more;
      var next := 2 * code + bits[0];
      if next < Inodes(t.symbolsIn, level) {
        WalkGoesOn(t, level + 1, next, bits[1..], more);
      }
    }
  }

  /** In a part of a code word no leaf is found. */
  lemma WordCut(len: seq<nat>, size: nat, c: nat, bits: seq<nat>)
    requires IsCode(len) && c <= END && 1 <= len[c] && bits < Word(len, c)
    ensures TablesOK(TablesOf(len, size)) && FindLeaf(TablesOf(len, size), 0, 0, bits).OutOfBits?
  {
    var t, more := TablesOf(len, size), Word(len, c)[|bits|..];
    assert bits + more == Word(len, c) == Word(len, c) + [];
    WordFound(len, size, c, []);
    if !FindLeaf(t, 0, 0, bits).OutOfBits? {
      WalkGoesOn(t, 0, 0, bits, more);
    }
  }

  lemma PrefixCases(word: seq<nat>, rest: seq<nat>, bits: seq<nat>)
    requires bits <= word + rest
    ensures bits < word || (word <= bits && bits == word + bits[|word|..] && bits[|word|..] <= rest)
    ensures bits < word + rest && word <= bits ==> bits[|word|..] < rest
  {
  }

  /**
   Of a text that is cut short, what is read is a part of the text; and unless reading it fails, it is taken for the
   whole if and only if so many bytes have been read as the stored length says.
   */
  lemma {:induction false} DecodeCut(len: seq<nat>, size: nat, text: seq<byte>, bits: seq<nat>, done: nat,
      faulty: bool)
    requires IsCode(len) && Encodable(len, text) && bits < Encode(len, text)
    ensures TablesOK(TablesOf(len, size)) && Binary(bits)
    ensures var o := Run(TablesOf(len, size), bits, done, faulty);
      && o.bytes <= text
      && o.end == if faulty then ReadFailed else if done + |o.bytes| == size then EndOfData else Corrupt
    decreases |text|
  {
    TablesFit(len, size);
    if text == [] {
      WordCut(len, size, END, bits);
    } else {
      var word, rest := Word(len, text[0]), Encode(len, text[1..]);
      PrefixCases(word, rest, bits);
      if bits < word {
        WordCut(len, size, text[0], bits);
      } else {
        var more := bits[|word|..];
        DecodeCut(len, size, text[1..], more, done + 1, faulty);
        RunWord(len, TablesOf(len, size), text[0], more, done, faulty);
        FirstOf(text);
      }
    }
  }

  lemma FirstOf(text: seq<byte>)
    requires text != []
    ensures forall rest | rest <= text[1..] :: [text[0]] + rest <= text
  {
  }
}
