/** What a decompressing reader promises: bytes, then one final condition, however the reads cut the bytes. */
module Streams {
  import opened Bits

  datatype Option<+T> = None | Some(value: T)

  /** How a stream ends: end of data, data that is not of the format, or a failed read of the input. */
  datatype Error = EndOfData | Corrupt | ReadFailed

  /** Everything a decoder will still deliver: the bytes, and what ends them. */
  datatype Outcome = Outcome(bytes: seq<byte>, end: Error)

  function Prepend(s: seq<byte>, o: Outcome): Outcome {
    Outcome(s + o.bytes, o.end)
  }

  lemma PrependTwice(a: seq<byte>, b: seq<byte>, o: Outcome)
    ensures Prepend(a, Prepend(b, o)) == Prepend(a + b, o)
  {
    assert a + (b + o.bytes) == (a + b) + o.bytes;
  }

  /** The first n bytes of a buffer are those of done. */
  ghost predicate Filled(p: array<byte>, n: nat, done: seq<byte>)
    reads p
  {
    |done| == n <= p.Length && forall i | 0 <= i < n :: p[i] == done[i]
  }
}
