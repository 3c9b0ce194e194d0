/** Runs of the decoder code by code: how wide each code is, what it means, and what is read of a stream cut short. */
module LzwRuns {
  import opened Bits
  import opened Streams
  import opened LzwDecoder

  /** w is the least width from 9 up in which n can be written, but no more than maxBits. */
  predicate Least(w: nat, n: nat, maxBits: nat) {
    && 9 <= w <= maxBits
    && (w < maxBits ==> n < Pow2(w))
    && (9 < w ==> Pow2(w - 1) <= n)
  }

  lemma LeastUnique(v: nat, w: nat, n: nat, maxBits: nat)
    requires Least(v, n, maxBits) && Least(w, n, maxBits)
    ensures v == w
  {
    if v < w {
      Pow2Monotone(v, w - 1);
    } else if w < v {
      Pow2Monotone(w, v - 1);
    }
  }

  // ----- a run, code by code

  /** Where a run stands before a code, and what it has delivered. */
  datatype State = State(t: Dictionary, c: Cursor, out: seq<byte>)

  ghost predicate StateOK(s: State) { DictionaryOK(s.t) && CursorOK(s.c, s.t.maxBits) }

  /** One code further; nothing when the run ends there. */
  function Advance(s: State): (r: Option<State>)
    requires StateOK(s)
    ensures r.Some? ==> StateOK(r.value)
  {
    match NextCode(s.c, s.t.maxBits, |s.t.table|)
    case NoCode(e) => None
    case Code(code, after) =>
      var str := StringOf(s.t, code);
      if s.t.block && code == CLEAR then Some(State(Fresh(true, s.t.maxBits), after.(cleared := true), s.out))
      else if str == [] then None
      else Some(State(Learn(s.t, str), after, s.out + str))
  }

  ghost predicate StepsTo(s: State, r: State) { StateOK(s) && StateOK(r) && Advance(s) == Some(r) }

  /** States one code after the other. */
  ghost predicate IsRun(run: seq<State>) {
    run != [] && StateOK(run[0]) && forall i | 0 <= i < |run| - 1 :: StepsTo(run[i], run[i + 1])
  }

  lemma AdvanceRuns(s: State)
    requires StateOK(s) && Advance(s).Some?
    ensures var r := Advance(s).value;
      Prepend(s.out, Run(s.t, s.c)) == Prepend(r.out, Run(r.t, r.c))
  {
    var next := NextCode(s.c, s.t.maxBits, |s.t.table|);
    if !(s.t.block && next.code == CLEAR) {
      var str := StringOf(s.t, next.code);
      PrependTwice(s.out, str, Run(Learn(s.t, str), next.after));
    }
  }

  /** What a run delivers is what it has delivered by any code and what it delivers from there on. */
  lemma {:induction false} RunDelivers(run: seq<State>, k: nat)
    requires IsRun(run) && k < |run|
    ensures StateOK(run[k])
    ensures Prepend(run[0].out, Run(run[0].t, run[0].c)) == Prepend(run[k].out, Run(run[k].t, run[k].c))
    decreases k
  {
    if k > 0 {
      RunDelivers(run, k - 1);
      assert StepsTo(run[k - 1], run[k]);
      AdvanceRuns(run[k - 1]);
    }
  }

  // ----- the width

  /** The cursor's width served until now: the table has outgrown it by at most one entry. */
  predicate Served(size: nat, c: Cursor) {
    if c.cleared then size < 512
    else (9 < c.width ==> Pow2(c.width - 1) <= size) && size <= Pow2(c.width)
  }

  /** A code that is read has the least width for the size of the table. */
  lemma ReadyWidth(c: Cursor, maxBits: nat, size: nat)
    requires 12 <= maxBits && CursorOK(c, maxBits) && size <= Pow2(maxBits) && Served(size, c)
    ensures Least(NextWidth(c, maxBits, size), size, maxBits)
    ensures ReadyGroup(c, maxBits, size).Ready? ==>
              ReadyGroup(c, maxBits, size).cursor.width == NextWidth(c, maxBits, size)
              && !ReadyGroup(c, maxBits, size).cursor.cleared
  {
    Pow2Values();
  }

  lemma AdvanceServed(s: State)
    requires StateOK(s) && Served(|s.t.table|, s.c) && Advance(s).Some?
    ensures Served(|Advance(s).value.t.table|, Advance(s).value.c)
  {
    ReadyWidth(s.c, s.t.maxBits, |s.t.table|);
  }

  lemma {:induction false} RunServed(run: seq<State>, k: nat)
    requires IsRun(run) && k < |run| && Served(|run[0].t.table|, run[0].c)
    ensures StateOK(run[k]) && Served(|run[k].t.table|, run[k].c)
    decreases k
  {
    if k > 0 {
      RunServed(run, k - 1);
      assert StepsTo(run[k - 1], run[k]);
      AdvanceServed(run[k - 1]);
    }
  }

  function Beginning(block: bool, maxBits: nat, group: seq<byte>, rest: seq<byte>, faulty: bool): (s: State)
    requires 12 <= maxBits <= BITS && |group| == BITS
    ensures StateOK(s)
  {
    State(Fresh(block, maxBits), Start(group, rest, faulty), [])
  }

  /**
   The next code is read in the least width from 9 up that holds the number of entries, or in the widest: so any code a
   writer can send next, up to the entry it has not finished, fits.
   */
  ghost predicate WidthIsLeast(s: State)
    requires StateOK(s)
  {
    var size, ready := |s.t.table|, ReadyGroup(s.c, s.t.maxBits, |s.t.table|);
    ready.Ready? ==>
      Least(ready.cursor.width, size, s.t.maxBits) && (size < Pow2(s.t.maxBits) ==> size < Pow2(ready.cursor.width))
  }

  lemma ServedIsLeast(s: State)
    requires StateOK(s) && Served(|s.t.table|, s.c)
    ensures WidthIsLeast(s)
  {
    ReadyWidth(s.c, s.t.maxBits, |s.t.table|);
  }

  lemma BeginningServed(block: bool, maxBits: nat, group: seq<byte>, rest: seq<byte>, faulty: bool)
    requires 12 <= maxBits <= BITS && |group| == BITS
    ensures Served(|Beginning(block, maxBits, group, rest, faulty).t.table|,
                   Beginning(block, maxBits, group, rest, faulty).c)
  {
    NineBits(INIT_BITS);
  }

  lemma NineBits(w: nat)
    requires w == 9
    ensures Pow2(w) == 512
  {
    Pow2Values();
  }

  /** That is so in every state a run comes to. */
  lemma WidthLaw(run: seq<State>, k: nat, block: bool, maxBits: nat, group: seq<byte>, rest: seq<byte>, faulty: bool)
    requires 12 <= maxBits <= BITS && |group| == BITS
    requires IsRun(run) && run[0] == Beginning(block, maxBits, group, rest, faulty) && k < |run|
    ensures StateOK(run[k]) && WidthIsLeast(run[k])
  {
    BeginningServed(block, maxBits, group, rest, faulty);
    RunServed(run, k);
    ServedIsLeast(run[k]);
  }

  // ----- what codes mean

  /** Only the clear code has no string. */
  predicate EntriesOK(t: Dictionary) {
    forall c | 0 <= c < |t.table| :: t.table[c] == [] <==> t.block && c == 256
  }

  lemma LearnEntries(t: Dictionary, s: seq<byte>)
    requires DictionaryOK(t) && EntriesOK(t) && s != []
    ensures EntriesOK(Learn(t, s))
  {
  }

  lemma AdvanceEntries(s: State)
    requires StateOK(s) && EntriesOK(s.t) && Advance(s).Some?
    ensures EntriesOK(Advance(s).value.t)
  {
    var str := StringOf(s.t, NextCode(s.c, s.t.maxBits, |s.t.table|).code);
    if str != [] {
      LearnEntries(s.t, str);
    }
  }

  lemma {:induction false} RunEntries(run: seq<State>, k: nat)
    requires IsRun(run) && k < |run| && EntriesOK(run[0].t)
    ensures StateOK(run[k]) && EntriesOK(run[k].t)
    decreases k
  {
    if k > 0 {
      RunEntries(run, k - 1);
      assert StepsTo(run[k - 1], run[k]);
      AdvanceEntries(run[k - 1]);
    }
  }

  /** What a code delivers: an entry's string, or of the entry not finished, the previous string and its first byte. */
  function Delivers(t: Dictionary, code: nat): (s: Option<seq<byte>>) {
    if code < |t.table| then Some(t.table[code])
    else if code == |t.table| && t.prev != [] then Some(t.prev + [t.prev[0]])
    else None
  }

  ghost predicate CodeUsed(s: State, code: nat)
    requires StateOK(s)
  {
    if s.t.block && code == 256 then Advance(s).Some? && Advance(s).value.out == s.out
    else
      match Delivers(s.t, code)
      case None => Advance(s).None?
      case Some(str) => str != [] && Advance(s).Some? && Advance(s).value.out == s.out + str
  }

  lemma UsedAsDelivered(s: State)
    requires StateOK(s) && EntriesOK(s.t) && NextCode(s.c, s.t.maxBits, |s.t.table|).Code?
    ensures CodeUsed(s, NextCode(s.c, s.t.maxBits, |s.t.table|).code)
  {
  }

  /** In every state a run comes to, a code is corrupt exactly when it is none of the table's nor the next. */
  lemma CodeMeans(run: seq<State>, k: nat, block: bool, maxBits: nat, group: seq<byte>, rest: seq<byte>, faulty: bool)
    requires 12 <= maxBits <= BITS && |group| == BITS
    requires IsRun(run) && run[0] == Beginning(block, maxBits, group, rest, faulty) && k < |run|
    ensures StateOK(run[k])
    ensures var next := NextCode(run[k].c, run[k].t.maxBits, |run[k].t.table|);
      next.Code? ==> CodeUsed(run[k], next.code)
  {
    FreshEntries(block, maxBits);
    RunEntries(run, k);
    if NextCode(run[k].c, run[k].t.maxBits, |run[k].t.table|).Code? {
      UsedAsDelivered(run[k]);
    }
  }

  lemma FreshEntries(block: bool, maxBits: nat)
    requires 12 <= maxBits <= BITS
    ensures EntriesOK(Fresh(block, maxBits))
  {
  }

  lemma NineBitCode(b: byte, tail: seq<byte>)
    requires |tail| > 0
    ensures Slice(BitsOf([b] + tail), 0, 9) == 256 * (tail[0] as int % 2) + b as int
  {
    var buf := [b] + tail;
    var bits := BitsOf(buf);
    SliceSplit(bits, 0, 8, 1);
    SliceInByte(buf, bits, 0, 0, 0, 8);
    SliceInByte(buf, bits, 1, 0, 8, 1);
    ByteAlone(b, tail[0]);
  }

  lemma ByteAlone(b: byte, c: byte)
    ensures Low(Shr(b, 0), 8) == b && Shl(Low(Shr(c, 0), 1), 8) == 256 * (c % 2)
  {
    assert Pow2(8) == 256 by { Pow2Values(); }
    LowSmall(b, 8);
    var x := Low(c, 1);
    assert x == c % 2 + 2 * Low(c / 2, 0) == c % 2;
    assert Shl(x, 8) == 2 * Shl(x, 7) == 4 * Shl(x, 6) == 8 * Shl(x, 5) == 16 * Shl(x, 4) == 32 * Shl(x, 3);
    assert Shl(x, 3) == 2 * Shl(x, 2) == 4 * Shl(x, 1) == 8 * x;
  }

  /**
   A last byte alone is still read as a code of nine bits, the bit it lacks taken from the group before; unless the
   input ends in a read error.
   */
  lemma LoneByte(c: Cursor, maxBits: nat, size: nat)
    requires 12 <= maxBits <= BITS && CursorOK(c, maxBits) && |c.rest| == 1
    requires !c.cleared && c.width == 9 && c.off >= c.size && size < 512 && size <= Pow2(maxBits)
    ensures var next := NextCode(c, maxBits, size);
      if c.faulty then next == NoCode(ReadFailed)
      else next.Code? && next.code == 256 * (c.group[1] as int % 2) + c.rest[0] as int && next.after.rest == []
  {
    NineBits(9);
    NineBitCode(c.rest[0], c.group[1..]);
    assert c.rest[..1] == [c.rest[0]];
  }

  // ----- streams cut short

  /** The same cursor with so many bytes fewer to come. */
  function Short(c: Cursor, n: nat): Cursor
    requires n <= |c.rest|
  {
    c.(rest := c.rest[..|c.rest| - n])
  }

  function Less(s: State, n: nat): State
    requires n <= |s.c.rest|
  {
    State(s.t, Short(s.c, n), s.out)
  }

  lemma Slices(rest: seq<byte>, w: nat, n: nat)
    requires w + n <= |rest|
    ensures rest[..|rest| - n][..w] == rest[..w]
    ensures rest[..|rest| - n][w..] == rest[w..][..|rest| - w - n]
  {
  }

  lemma TakesSame(c: Cursor, w: nat, n: nat)
    requires INIT_BITS <= w <= BITS && |c.group| == BITS && w + n <= |c.rest|
    ensures TakeGroup(Short(c, n), w) == Short(TakeGroup(c, w), n)
  {
    Slices(c.rest, w, n);
  }

  /** A group taken from what is there is taken without what comes behind. */
  lemma ReadySame(c: Cursor, maxBits: nat, size: nat, n: nat)
    requires 12 <= maxBits <= BITS && CursorOK(c, maxBits) && size <= Pow2(maxBits) && 0 < n <= |c.rest|
    requires ReadyGroup(c, maxBits, size).Ready? && n <= |ReadyGroup(c, maxBits, size).cursor.rest|
    ensures ReadyGroup(Short(c, n), maxBits, size) == Ready(Short(ReadyGroup(c, maxBits, size).cursor, n))
  {
    if NeedsGroup(c, maxBits, size) {
      TakesSame(c, NextWidth(c, maxBits, size), n);
    }
  }

  lemma NextSame(c: Cursor, maxBits: nat, size: nat, n: nat)
    requires 12 <= maxBits <= BITS && CursorOK(c, maxBits) && size <= Pow2(maxBits) && 0 < n <= |c.rest|
    requires NextCode(c, maxBits, size).Code? && n <= |NextCode(c, maxBits, size).after.rest|
    ensures CursorOK(Short(c, n), maxBits)
    ensures var next := NextCode(c, maxBits, size);
      NextCode(Short(c, n), maxBits, size) == Code(next.code, Short(next.after, n))
  {
    ReadySame(c, maxBits, size, n);
  }

  lemma AdvancesSame(s: State, n: nat)
    requires StateOK(s) && Advance(s).Some? && 0 < n <= |Advance(s).value.c.rest|
    ensures n <= |s.c.rest| && StateOK(Less(s, n)) == true && Advance(Less(s, n)) == Some(Less(Advance(s).value, n))
  {
    NextSame(s.c, s.t.maxBits, |s.t.table|, n);
  }

  /** A run of which the last state has so many bytes to come is a run without them. */
  lemma ShortRun(run: seq<State>, n: nat) returns (short: seq<State>)
    requires IsRun(run) && 0 < n <= |run[|run| - 1].c.rest|
    ensures |short| == |run| && IsRun(short)
    ensures forall i | 0 <= i < |run| :: n <= |run[i].c.rest| && short[i] == Less(run[i], n)
  {
    RestShrinks(run, 0);
    forall i | 0 <= i < |run| ensures n <= |run[i].c.rest| {
      RestShrinks(run, i);
    }
    short := seq(|run|, i requires 0 <= i < |run| => Less(run[i], n));
    ShortOK(run[0], n);
    forall i | 0 <= i < |run| - 1 ensures StepsTo(short[i], short[i + 1]) {
      assert StepsTo(run[i], run[i + 1]);
      AdvancesSame(run[i], n);
      ShortOK(run[i + 1], n);
    }
  }

  lemma {:induction false} RestShrinks(run: seq<State>, i: nat)
    requires IsRun(run) && i < |run|
    ensures |run[|run| - 1].c.rest| <= |run[i].c.rest|
    decreases |run| - i
  {
    if i + 1 < |run| {
      RestShrinks(run, i + 1);
      assert StepsTo(run[i], run[i + 1]);
    }
  }

  lemma ShortOK(s: State, n: nat)
    requires StateOK(s) && n <= |s.c.rest|
    ensures StateOK(Less(s, n))
  {
  }

  /** With the codes of its group used up and no input, a run is at its end. */
  lemma RunEnds(t: Dictionary, c: Cursor)
    requires DictionaryOK(t) && CursorOK(c, t.maxBits) && NeedsGroup(c, t.maxBits, |t.table|) && c.rest == []
    requires Served(|t.table|, c)
    ensures Run(t, c) == Outcome([], if c.faulty then ReadFailed else EndOfData)
  {
    ReadyWidth(c, t.maxBits, |t.table|);
  }

  lemma NothingElse(a: seq<byte>, o: Outcome, b: seq<byte>, p: Outcome)
    requires a == [] && p.bytes == [] && Prepend(a, o) == Prepend(b, p)
    ensures o == Outcome(b, p.end)
  {
    assert a + o.bytes == o.bytes && b + p.bytes == b;
  }

  /** A run that is at its end has delivered what there is. */
  lemma EndsThere(run: seq<State>, w: State)
    requires IsRun(run) && run[0].out == [] && w == run[|run| - 1] && Served(|w.t.table|, w.c)
    requires StateOK(w) && w.c.rest == [] && NeedsGroup(w.c, w.t.maxBits, |w.t.table|)
    ensures Run(run[0].t, run[0].c) == Outcome(w.out, if w.c.faulty then ReadFailed else EndOfData)
  {
    RunDelivers(run, |run| - 1);
    RunEnds(w.t, w.c);
    NothingElse([], Run(run[0].t, run[0].c), w.out, Run(w.t, w.c));
  }

  /**
   Cut where a run of the whole takes a new group, a stream decodes as far as it goes: it gives what the whole had given
   by then, and ends there.
   */
  lemma CutAtGroup(run: seq<State>, w: State)
    requires IsRun(run) && Served(|run[0].t.table|, run[0].c) && run[0].out == []
    requires w == run[|run| - 1] && StateOK(w) && w.c.rest != [] && NeedsGroup(w.c, w.t.maxBits, |w.t.table|)
    ensures |w.c.rest| <= |run[0].c.rest| && CursorOK(Short(run[0].c, |w.c.rest|), run[0].t.maxBits)
    ensures Run(run[0].t, Short(run[0].c, |w.c.rest|))
         == Outcome(w.out, if w.c.faulty then ReadFailed else EndOfData)
  {
    var short := ShortRun(run, |w.c.rest|);
    RunServed(run, |run| - 1);
    EndsThere(short, Less(w, |w.c.rest|));
  }
}
