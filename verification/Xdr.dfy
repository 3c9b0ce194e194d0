/** XDR (RFC 4506): words, pairs of words and byte strings padded to a multiple of four, written and read. */
module Xdr {
  import opened Bits

  function Padded(n: nat): nat { (n + 3) / 4 * 4 }

  function Word(v: nat): seq<byte> {
    [v / 0x1000000 % 256, v / 0x10000 % 256, v / 0x100 % 256, v % 256]
  }

  function Words(v: nat): (b: seq<byte>)
    ensures |b| == 8
  {
    Word(v / 0x1_0000_0000) + Word(v)
  }

  function Padding(n: nat): seq<byte> { seq(n, _ => 0) }

  /** A length word, the bytes, and zeros to a multiple of four. */
  function Opaque(p: seq<byte>): (b: seq<byte>)
    ensures |b| == 4 + Padded(|p|)
  {
    Word(|p|) + p + Padding(Padded(|p|) - |p|)
  }

  lemma PadEnds(w: nat, n: nat, zeros: nat)
    requires w % 4 == 0 && n + zeros <= Padded(n)
    ensures (w + 4 + n + zeros) % 4 == 0 <==> n + zeros == Padded(n)
  {
  }

  /** Pads until the whole buffer is a multiple of four, which it was before. */
  method PutOpaque(w: seq<byte>, p: seq<byte>) returns (b: seq<byte>)
    requires |w| % 4 == 0
    ensures b == w + Opaque(p)
  {
    b := w + Word(|p|) + p;
    ghost var n := 0;
    PadEnds(|w|, |p|, n);
    while |b| % 4 != 0
      invariant b == w + Word(|p|) + p + Padding(n) && |p| + n <= Padded(|p|)
      invariant |b| % 4 == 0 <==> |p| + n == Padded(|p|)
      decreases Padded(|p|) - n
    {
      b := b + [0];
      n := n + 1;
      PadEnds(|w|, |p|, n);
    }
  }

  // ----- reading

  /** An item and the bytes behind it, or bytes that do not begin with one. */
  datatype Read<T> = Read(value: T, rest: seq<byte>) | Garbled

  function ReadWord(b: seq<byte>): (r: Read<nat>)
    ensures r.Read? ==> |r.rest| < |b|
  {
    if |b| < 4 then Garbled
    else Read(0x1000000 * (b[0] as int) + 0x10000 * (b[1] as int) + 0x100 * (b[2] as int) + b[3] as int, b[4..])
  }

  function ReadHyper(b: seq<byte>): (r: Read<nat>)
    ensures r.Read? ==> |r.rest| < |b|
  {
    match ReadWord(b)
    case Garbled => Garbled
    case Read(high, rest) =>
      match ReadWord(rest)
      case Garbled => Garbled
      case Read(low, rest) => Read(0x1_0000_0000 * high + low, rest)
  }

  /** A length, so many bytes, and the zeros that fill them up to a multiple of four. */
  function ReadOpaque(b: seq<byte>): (r: Read<seq<byte>>)
    ensures r.Read? ==> |r.rest| < |b|
  {
    match ReadWord(b)
    case Garbled => Garbled
    case Read(n, rest) =>
      var padding := if n % 4 == 0 then 0 else 4 - n % 4;
      if |rest| < n + padding || exists i | n <= i < n + padding :: rest[i] != 0 then Garbled
      else Read(rest[..n], rest[n + padding..])
  }

  /** Zero or one. */
  function ReadFlag(b: seq<byte>): (r: Read<bool>)
    ensures r.Read? ==> |r.rest| < |b|
  {
    match ReadWord(b)
    case Garbled => Garbled
    case Read(v, rest) => if v > 1 then Garbled else Read(v == 1, rest)
  }

  // ----- what is written is read back

  lemma FourBytes(v: nat)
    requires v < 0x1_0000_0000
    ensures v / 0x1000000 < 256
    ensures 0x1000000 * (v / 0x1000000) + 0x10000 * (v / 0x10000 % 256) + 0x100 * (v / 0x100 % 256) + v % 256 == v
  {
    var w, x := v / 0x100, v / 0x10000;
    assert w / 0x100 == x && x / 0x100 == v / 0x1000000;
  }

  lemma WordRead(v: nat, rest: seq<byte>)
    requires v < 0x1_0000_0000
    ensures ReadWord(Word(v) + rest) == Read(v, rest)
  {
    var b := Word(v) + rest;
    FourBytes(v);
    assert b[4..] == rest;
    assert b[0] == v / 0x1000000 && b[1] == v / 0x10000 % 256 && b[2] == v / 0x100 % 256 && b[3] == v % 256;
  }

  lemma Quotients(n: nat, low: nat)
    ensures (0x1000000 * n + low) / 0x1000000 == n + low / 0x1000000
    ensures (0x10000 * n + low) / 0x10000 == n + low / 0x10000
    ensures (0x100 * n + low) / 0x100 == n + low / 0x100
  {
  }

  lemma Remainder(n: nat, low: nat)
    ensures (256 * n + low) % 256 == low % 256
  {
  }

  /** The low word does not see the high one. */
  lemma WordLow(v: nat, high: nat, low: nat)
    requires v == 0x1_0000_0000 * high + low
    ensures Word(v) == Word(low)
  {
    Quotients(0x100 * high, low);
    Quotients(0x10000 * high, low);
    Quotients(0x1000000 * high, low);
    Remainder(high, low / 0x1000000);
    Remainder(0x100 * high, low / 0x10000);
    Remainder(0x10000 * high, low / 0x100);
    Remainder(0x1000000 * high, low);
  }

  lemma WordsAre(v: nat)
    requires v < 0x1_0000_0000_0000_0000
    ensures v / 0x1_0000_0000 < 0x1_0000_0000
    ensures Words(v) == Word(v / 0x1_0000_0000) + Word(v % 0x1_0000_0000)
  {
    WordLow(v, v / 0x1_0000_0000, v % 0x1_0000_0000);
  }

  lemma Joined(a: seq<byte>, b: seq<byte>, c: seq<byte>)
    ensures (a + b) + c == a + (b + c)
  {
  }

  lemma WordsRead(v: nat, rest: seq<byte>)
    requires v < 0x1_0000_0000_0000_0000
    ensures ReadHyper(Words(v) + rest) == Read(v, rest)
  {
    var high, low := v / 0x1_0000_0000, v % 0x1_0000_0000;
    WordsAre(v);
    Joined(Word(high), Word(low), rest);
    WordRead(high, Word(low) + rest);
    WordRead(low, rest);
  }

  lemma PaddedIs(n: nat)
    ensures Padded(n) == n + if n % 4 == 0 then 0 else 4 - n % 4
  {
  }

  lemma OpaqueRead(p: seq<byte>, rest: seq<byte>)
    requires |p| < 0x1_0000_0000
    ensures ReadOpaque(Opaque(p) + rest) == Read(p, rest)
  {
    var zeros := Padding(Padded(|p|) - |p|);
    assert Opaque(p) + rest == Word(|p|) + (p + zeros + rest);
    WordRead(|p|, p + zeros + rest);
    PaddedIs(|p|);
    var b := p + zeros + rest;
    assert b[..|p|] == p && b[|p + zeros|..] == rest && forall i | |p| <= i < |p + zeros| :: b[i] == 0;
  }
}
