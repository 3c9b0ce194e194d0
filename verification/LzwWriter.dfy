/**
 A writer of the compress(1) format: the longest string of its table each time, codes in the least width that holds its
 table, and groups that are padded when the width changes or the table is cleared.
 */
module LzwWriter {
  import opened Bits
  import opened LzwDecoder

  // ----- the table

  /** The one-byte strings, and in block mode an entry for the clear code. */
  function Literals(block: bool): (table: seq<seq<byte>>)
    ensures TableOK(table, block)
  {
    seq(256, i requires 0 <= i < 256 => [i]) + if block then [[]] else []
  }

  predicate TableOK(table: seq<seq<byte>>, block: bool) {
    && 256 <= |table|
    && (forall i | 0 <= i < 256 :: table[i] == [i])
    && (block ==> 256 < |table| && table[256] == [])
  }

  /** The code of the longest string that text begins with, among the first n. */
  function Longest(table: seq<seq<byte>>, text: seq<byte>, n: nat): (k: nat)
    requires text != [] && 256 <= n <= |table| && forall i | 0 <= i < 256 :: table[i] == [i]
    ensures k < n && table[k] != [] && table[k] <= text
    ensures forall i | 0 <= i < n && table[i] <= text :: |table[i]| <= |table[k]|
    decreases n, table
  {
    if n == 256 then text[0]
    else
      var k := Longest(table, text, n - 1);
      if table[n - 1] <= text && |table[k]| < |table[n - 1]| then n - 1 else k
  }

  /** Once a string is sent, it and the byte that follows it are an entry, unless the table is full. */
  function Grown(table: seq<seq<byte>>, s: seq<byte>, rest: seq<byte>, maxBits: nat): (r: seq<seq<byte>>)
    ensures table <= r && |r| <= |table| + 1
  {
    if rest != [] && |table| < Pow2(maxBits) then table + [s + [rest[0]]] else table
  }

  // ----- the codes

  datatype Sent = Sent(code: nat, width: nat)

  /** The least width from 9 to w that holds every code below n. */
  function Width(n: nat, w: nat): (r: nat)
    requires 9 <= w && n <= Pow2(w)
    ensures 9 <= r <= w && n <= Pow2(r) && (9 < r ==> Pow2(r - 1) < n)
  {
    if w == 9 || Pow2(w - 1) < n then w else Width(n, w - 1)
  }

  predicate RoomOK(table: seq<seq<byte>>, block: bool, maxBits: nat) {
    9 <= maxBits && TableOK(table, block) && |table| <= Pow2(maxBits)
  }

  /** Whether the table is cleared with so many bytes left. */
  predicate Clears(block: bool, clears: set<nat>, left: nat) { block && left in clears }

  /** The codes of a text; clears says with how many bytes left the table is cleared. */
  function Codes(table: seq<seq<byte>>, text: seq<byte>, block: bool, maxBits: nat, clears: set<nat>): (s: seq<Sent>)
    requires RoomOK(table, block, maxBits) && RoomOK(Literals(block), block, maxBits)
    decreases |text|, 1
  {
    if text == [] then []
    else if Clears(block, clears, |text|) then
      [Sent(256, Width(|table|, maxBits))] + Phrase(Literals(block), text, block, maxBits, clears)
    else Phrase(table, text, block, maxBits, clears)
  }

  function Phrase(table: seq<seq<byte>>, text: seq<byte>, block: bool, maxBits: nat, clears: set<nat>): (s: seq<Sent>)
    requires RoomOK(table, block, maxBits) && RoomOK(Literals(block), block, maxBits) && text != []
    decreases |text|, 0
  {
    var k := Longest(table, text, |table|);
    var rest := text[|table[k]|..];
    [Sent(k, Width(|table|, maxBits))]
      + Codes(Grown(table, table[k], rest, maxBits), rest, block, maxBits, clears)
  }

  // ----- the bits

  function LowBits(v: nat, n: nat): (bits: seq<nat>)
    ensures |bits| == n && forall i | 0 <= i < n :: bits[i] < 2
  {
    seq(n, i requires 0 <= i < n => Bit(v, i))
  }

  /** The bits of codes, one after the other, each least significant bit first. */
  function CodeBits(codes: seq<Sent>): (bits: seq<nat>)
    ensures forall i | 0 <= i < |bits| :: bits[i] < 2
  {
    if codes == [] then [] else CodeBits(codes[..|codes| - 1]) + Last(codes)
  }

  function Last(codes: seq<Sent>): (bits: seq<nat>)
    requires codes != []
    ensures forall i | 0 <= i < |bits| :: bits[i] < 2
  {
    LowBits(codes[|codes| - 1].code, codes[|codes| - 1].width)
  }

  /** A group goes on past a code unless it is full, the width changes or the code clears the table. */
  predicate GoesOn(sent: seq<Sent>, block: bool, i: nat)
    requires i < |sent|
  {
    i + 1 < |sent| && i + 1 < 8 && sent[i + 1].width == sent[i].width && !(block && sent[i].code == 256)
  }

  /** How many codes the first group has, i + 1 or more. */
  function GroupLen(sent: seq<Sent>, block: bool, i: nat): (n: nat)
    requires i < |sent|
    ensures i < n <= |sent| && !GoesOn(sent, block, n - 1) && (n <= 8 || n == i + 1)
    ensures forall j | i <= j < n - 1 :: GoesOn(sent, block, j)
    decreases |sent| - i
  {
    if GoesOn(sent, block, i) then GroupLen(sent, block, i + 1) else i + 1
  }

  /** Bytes of a group: as many as a code has bits, the last one only as many as it needs. */
  function GroupSize(bits: nat, width: nat, last: bool): nat {
    if last then (bits + 7) / 8 else width
  }

  /** Eight bits from at on, with zeros past the end. */
  function Eight(bits: seq<nat>, at: nat): (r: seq<nat>)
    requires forall i | 0 <= i < |bits| :: bits[i] < 2
    ensures |r| == 8 && forall i | 0 <= i < 8 :: r[i] < 2 && r[i] == if at + i < |bits| then bits[at + i] else 0
  {
    seq(8, i requires 0 <= i < 8 => if at + i < |bits| then bits[at + i] else 0)
  }

  function Octet(bits: seq<nat>, at: nat): (b: byte)
    requires forall i | 0 <= i < |bits| :: bits[i] < 2
  {
    SliceBound(Eight(bits, at), 0, 8);
    assert Pow2(8) == 256 by { Pow2Values(); }
    Slice(Eight(bits, at), 0, 8)
  }

  function GroupBytes(codes: seq<Sent>, last: bool): (b: seq<byte>)
    requires codes != []
  {
    var bits := CodeBits(codes);
    seq(GroupSize(|bits|, codes[0].width, last), i requires 0 <= i => Octet(bits, 8 * i))
  }

  /** The codes in groups. */
  function Pack(sent: seq<Sent>, block: bool): (b: seq<byte>) {
    if sent == [] then []
    else
      var n := GroupLen(sent, block, 0);
      GroupBytes(sent[..n], n == |sent|) + Pack(sent[n..], block)
  }

  /** A whole stream: magic, the widest code with the block-mode flag, and the codes of the text. */
  function Compress(text: seq<byte>, block: bool, maxBits: nat, clears: set<nat>): (data: seq<byte>)
    requires 12 <= maxBits <= 16
  {
    RoomAtFirst(block, maxBits);
    [0x1f, 0x9d, maxBits + if block then 128 else 0] + Pack(Codes(Literals(block), text, block, maxBits, clears), block)
  }

  lemma RoomAtFirst(block: bool, maxBits: nat)
    requires 12 <= maxBits
    ensures RoomOK(Literals(block), block, maxBits)
  {
    Pow2Values();
    Pow2Monotone(9, maxBits);
  }
}
