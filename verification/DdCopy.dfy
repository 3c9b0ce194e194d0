/** The shell's dd: whole input blocks copied in groups, as a dd of one block at a time would copy and count them. */
module DdCopy {
  import opened Bits
  import opened Streams

  const GROUP := 32768

  /** What a dd writes and reports: full records, and whether one was cut short. */
  datatype Report = Report(out: seq<byte>, full: nat, partial: bool)

  /** One record at a time. */
  function OneByOne(src: seq<byte>, ibs: nat): (r: Report)
    requires ibs > 0
  {
    if |src| < ibs then Report(src, 0, src != [])
    else
      var rest := OneByOne(src[ibs..], ibs);
      Report(src[..ibs] + rest.out, rest.full + 1, rest.partial)
  }

  /** The file from an offset on, to its end or a limit. */
  function Section(file: seq<byte>, off: nat, limit: Option<nat>): (src: seq<byte>) {
    var rest := if off <= |file| then file[off..] else [];
    if limit.Some? && limit.value <= |rest| then rest[..limit.value] else rest
  }

  /** The bytes dd is asked for: count records, or all, after skip records. */
  function Asked(file: seq<byte>, ibs: nat, skip: nat, count: Option<nat>): (src: seq<byte>) {
    Section(file, skip * ibs, if count.Some? then Some(count.value * ibs) else None)
  }

  /** What the reads bring of them: all, or so many bytes when a read falls short. */
  function Given(asked: seq<byte>, gives: nat): (src: seq<byte>) {
    if gives < |asked| then asked[..gives] else asked
  }

  // ----- records

  /** n records of d bytes. */
  function Span(n: nat, d: nat): (bytes: nat)
    decreases n, d
  {
    if n == 0 then 0 else Span(n - 1, d) + d
  }

  lemma {:induction false} SpanIs(n: nat, d: nat)
    ensures Span(n, d) == n * d
  {
    if n > 0 {
      SpanIs(n - 1, d);
      assert n * d == (n - 1) * d + d;
    }
  }

  lemma {:induction false} SpanAdd(a: nat, b: nat, d: nat)
    ensures Span(a + b, d) == Span(a, d) + Span(b, d)
    decreases b
  {
    if b > 0 {
      SpanAdd(a, b - 1, d);
    }
  }

  lemma {:induction false} SpanRises(a: nat, b: nat, d: nat)
    requires a < b
    ensures Span(a, d) + d <= Span(b, d)
    decreases b
  {
    if a < b - 1 {
      SpanRises(a, b - 1, d);
    }
  }

  lemma Euclid(x: nat, d: nat)
    requires d > 0
    ensures x == Span(x / d, d) + x % d
  {
    SpanIs(x / d, d);
  }

  /** Quotient and remainder are the only such pair. */
  lemma DivIs(x: nat, d: nat, q: nat, r: nat)
    requires d > 0 && x == Span(q, d) + r && r < d
    ensures x / d == q && x % d == r
  {
    Euclid(x, d);
    if q < x / d {
      SpanRises(q, x / d, d);
    } else if x / d < q {
      SpanRises(x / d, q, d);
    }
  }

  lemma DivGroups(a: nat, x: nat, d: nat)
    requires d > 0
    ensures (Span(a, d) + x) / d == a + x / d && (Span(a, d) + x) % d == x % d
  {
    Euclid(x, d);
    SpanAdd(a, x / d, d);
    DivIs(Span(a, d) + x, d, a + x / d, x % d);
  }

  /** One at a time everything is written, and the records are the quotient and whether there is a remainder. */
  lemma {:induction false} OneByOneIs(src: seq<byte>, ibs: nat)
    requires ibs > 0
    ensures OneByOne(src, ibs) == Report(src, |src| / ibs, |src| % ibs != 0)
  {
    if |src| < ibs {
      DivIs(|src|, ibs, 0, |src|);
    } else {
      OneByOneIs(src[ibs..], ibs);
      DivGroups(1, |src| - ibs, ibs);
      assert Span(1, ibs) == Span(0, ibs) + ibs;
      assert src == src[..ibs] + src[ibs..];
    }
  }

  /** Records to a buffer. */
  function PerBuffer(ibs: nat): (g: nat)
    requires ibs > 0
    ensures g > 0
  {
    if ibs < GROUP then
      GroupFits(ibs);
      GROUP / ibs
    else 1
  }

  lemma GroupFits(ibs: nat)
    requires 0 < ibs < GROUP
    ensures GROUP / ibs > 0
  {
    Euclid(GROUP, ibs);
    assert Span(0, ibs) == 0;
  }

  /** A whole buffer is whole records, and what a cut one adds is what it adds to the total. */
  lemma Counted(full: nat, n: nat, g: nat, ibs: nat)
    requires ibs > 0 && n <= Span(g, ibs)
    ensures n == Span(g, ibs) ==> n % ibs == 0 && Span(full + n / ibs, ibs) == Span(full, ibs) + n
    ensures (Span(full, ibs) + n) / ibs == full + n / ibs && (Span(full, ibs) + n) % ibs == n % ibs
    ensures n == 0 ==> n / ibs == 0 && n % ibs == 0
  {
    DivGroups(full, n, ibs);
    if n == Span(g, ibs) {
      DivIs(n, ibs, g, 0);
      SpanAdd(full, g, ibs);
    }
    if n == 0 {
      DivIs(n, ibs, 0, 0);
    }
  }

  // ----- the copy

  datatype Status = Done(report: Report) | Interrupted(out: seq<byte>) | Failed(out: seq<byte>)

  lemma TakeMore(src: seq<byte>, k: nat, n: nat)
    requires k + n <= |src|
    ensures src[..k] + src[k..k + n] == src[..k + n]
  {
  }

  function BufferSize(ibs: nat): (size: nat)
    requires ibs > 0
    ensures size == Span(PerBuffer(ibs), ibs) && size > 0
  {
    SpanIs(PerBuffer(ibs), ibs);
    SpanRises(0, PerBuffer(ibs), ibs);
    PerBuffer(ibs) * ibs
  }

  /** A buffer is as many whole records as 32768 bytes hold, or one record that is larger. */
  lemma BufferSizeIs(ibs: nat)
    requires ibs > 0
    ensures BufferSize(ibs) % ibs == 0
    ensures if ibs <= 32768 then BufferSize(ibs) <= 32768 < BufferSize(ibs) + ibs else BufferSize(ibs) == ibs
  {
    DivIs(BufferSize(ibs), ibs, PerBuffer(ibs), 0);
    Euclid(32768, ibs);
    assert Span(1, ibs) == Span(0, ibs) + ibs;
    if ibs == 32768 {
      DivIs(32768, ibs, 1, 0);
    }
  }

  // ----- looks at the controller: one before each buffer is read, and one after each that brought something

  /** Whether a copy of so many bytes comes to a look, if it is not interrupted before. */
  predicate Looks(size: nat, ibs: nat, look: nat)
    requires ibs > 0
  {
    var before := Span(look / 2, BufferSize(ibs));
    if look % 2 == 0 then before <= size else before < size
  }

  /** The bytes written by then: so many buffers, or all. */
  function Written(size: nat, ibs: nat, look: nat): (n: nat)
    requires ibs > 0
    ensures n <= size
  {
    var buffers := Span((look + 1) / 2, BufferSize(ibs));
    if buffers <= size then buffers else size
  }

  /**
   Two looks for each buffer that is full, one more before the last read, and one after it if it brought something.
   */
  lemma LooksAre(size: nat, ibs: nat, look: nat)
    requires ibs > 0
    ensures var b := BufferSize(ibs);
      Looks(size, ibs, look) <==> look <= 2 * (size / b) + if size % b == 0 then 0 else 1
  {
    var b, k := BufferSize(ibs), look / 2;
    Euclid(size, b);
    if k < size / b {
      SpanRises(k, size / b, b);
    } else if size / b < k {
      SpanRises(size / b, k, b);
    }
  }

  /** Before a buffer is read those before it are written, and after it so is that. */
  lemma WrittenIs(size: nat, ibs: nat, buffers: nat)
    requires ibs > 0
    ensures var b := BufferSize(ibs);
      && Written(size, ibs, 2 * buffers) == (if buffers * b <= size then buffers * b else size)
      && Written(size, ibs, 2 * buffers + 1) == if (buffers + 1) * b <= size then (buffers + 1) * b else size
  {
    SpanIs(buffers, BufferSize(ibs));
    SpanIs(buffers + 1, BufferSize(ibs));
  }

  /** The first look at which a signal is seen. */
  predicate IsFirst(look: nat, interrupts: set<nat>) {
    look in interrupts && forall other | other in interrupts :: look <= other
  }

  predicate Sees(size: nat, ibs: nat, interrupts: set<nat>)
    requires ibs > 0
  {
    exists look | look in interrupts :: Looks(size, ibs, look)
  }

  /** A copy that is interrupted is so at the first look that sees a signal, with what is written by then. */
  ghost predicate StopsAtFirst(src: seq<byte>, ibs: nat, interrupts: set<nat>, out: seq<byte>)
    requires ibs > 0
  {
    exists look :: IsFirst(look, interrupts) && Looks(|src|, ibs, look) && out == src[..Written(|src|, ibs, look)]
  }

  /** None of the looks before has seen a signal. */
  ghost predicate Unseen(size: nat, ibs: nat, interrupts: set<nat>, looks: nat)
    requires ibs > 0
  {
    forall look | look in interrupts && look < looks :: !Looks(size, ibs, look)
  }

  lemma {:induction false} LooksEarlier(size: nat, ibs: nat, a: nat, b: nat)
    requires ibs > 0 && a <= b && Looks(size, ibs, b)
    ensures Looks(size, ibs, a)
  {
    if a / 2 < b / 2 {
      SpanRises(a / 2, b / 2, BufferSize(ibs));
    }
  }

  lemma StopsHere(src: seq<byte>, ibs: nat, interrupts: set<nat>, look: nat, out: seq<byte>)
    requires ibs > 0 && look in interrupts && Looks(|src|, ibs, look) && Unseen(|src|, ibs, interrupts, look)
    requires out == src[..Written(|src|, ibs, look)]
    ensures Sees(|src|, ibs, interrupts) && StopsAtFirst(src, ibs, interrupts, out)
  {
    forall other | other in interrupts ensures look <= other {
      if other < look {
        LooksEarlier(|src|, ibs, other, look);
      }
    }
    assert IsFirst(look, interrupts);
  }

  lemma NoneSeen(size: nat, ibs: nat, interrupts: set<nat>, buffers: nat)
    requires ibs > 0 && size < Span(buffers, BufferSize(ibs)) && Unseen(size, ibs, interrupts, 2 * buffers)
    ensures !Sees(size, ibs, interrupts)
  {
    forall look | look in interrupts ensures !Looks(size, ibs, look) {
      if buffers < look / 2 {
        SpanRises(buffers, look / 2, BufferSize(ibs));
      }
    }
  }

  /** Whether a signal has been seen by so many looks, and if so, that the copy stops there with these bytes. */
  ghost predicate Looked(src: seq<byte>, ibs: nat, interrupts: set<nat>, looks: nat, seen: bool, out: seq<byte>)
    requires ibs > 0
  {
    if seen then Sees(|src|, ibs, interrupts) && StopsAtFirst(src, ibs, interrupts, out)
    else Unseen(|src|, ibs, interrupts, looks)
  }

  lemma LookAfter(src: seq<byte>, ibs: nat, interrupts: set<nat>, done: nat, buffers: nat,
      looks: nat, n: nat)
    requires ibs > 0 && done <= |src| && done == Span(buffers, BufferSize(ibs))
    requires n == if BufferSize(ibs) <= |src| - done then BufferSize(ibs) else |src| - done
    requires Unseen(|src|, ibs, interrupts, looks + 1) == true && looks == 2 * buffers
    ensures Looked(src, ibs, interrupts, looks + 2, n > 0 && looks + 1 in interrupts, src[..done + n]) == true
  {
    var look := looks + 1;
    assert look / 2 == buffers && (look + 1) / 2 == buffers + 1;
    assert Looks(|src|, ibs, look) <==> n > 0;
    if n > 0 && look in interrupts {
      StopsHere(src, ibs, interrupts, look, src[..done + n]);
    }
  }

  lemma CountAfter(size: nat, ibs: nat, bufSize: nat, done: nat, full: nat, buffers: nat, n: nat)
    requires ibs > 0 && bufSize == BufferSize(ibs) && done <= size && done == Span(full, ibs) == Span(buffers, bufSize)
    requires n == if bufSize <= size - done then bufSize else size - done
    ensures n / ibs >= 0
    ensures n == bufSize ==> n % ibs == 0 && done + n == Span(full + n / ibs, ibs) == Span(buffers + 1, bufSize)
    ensures n < bufSize ==> full + n / ibs == size / ibs && n % ibs == size % ibs && size < Span(buffers + 1, bufSize)
  {
    Counted(full, n, PerBuffer(ibs), ibs);
  }

  /** A buffer read and written, and a look at the controller if it brought something. */
  method CopyOne(src: seq<byte>, ibs: nat, bufSize: nat, done: nat, full: nat, ghost buffers: nat, looks: nat,
      interrupts: set<nat>)
    returns (n: nat, records: nat, partial: bool, seen: bool)
    requires ibs > 0 && bufSize == BufferSize(ibs) && done <= |src| && done == Span(full, ibs)
    requires done == Span(buffers, bufSize) && looks == 2 * buffers && Unseen(|src|, ibs, interrupts, looks + 1) == true
    ensures n == if bufSize <= |src| - done then bufSize else |src| - done
    ensures n == bufSize ==> !partial && done + n == Span(full + records, ibs) == Span(buffers + 1, bufSize)
    ensures n < bufSize ==> full + records == |src| / ibs && (partial <==> |src| % ibs != 0)
    ensures n < bufSize ==> |src| < Span(buffers + 1, bufSize)
    ensures Looked(src, ibs, interrupts, looks + 2, seen, src[..done + n]) == true
  {
    n := if bufSize <= |src| - done then bufSize else |src| - done;
    CountAfter(|src|, ibs, bufSize, done, full, buffers, n);
    records, partial := n / ibs, n % ibs != 0;
    seen := n > 0 && looks + 1 in interrupts;
    LookAfter(src, ibs, interrupts, done, buffers, looks, n);
  }

  /**
   Copies buffer by buffer what src gives; broken says that it ends in a read error, interrupts at which looks a signal
   is seen. It is interrupted exactly when one of its looks sees a signal, and then at the first.
   */
  method CopyBuffers(src: seq<byte>, broken: bool, ibs: nat, interrupts: set<nat>) returns (s: Status)
    requires ibs > 0
    ensures s.Done? ==> !broken && s.report == Report(src, |src| / ibs, |src| % ibs != 0)
    ensures s.Failed? ==> broken && s.out == src
    ensures s.Interrupted? <==> Sees(|src|, ibs, interrupts)
    ensures s.Interrupted? ==> StopsAtFirst(src, ibs, interrupts, s.out)
  {
    var bufSize := BufferSize(ibs);
    var full: nat, looks: nat, done: nat := 0, 0, 0;
    var out, partial, last := [], false, false;
    ghost var buffers := 0;
    while !last
      invariant done <= |src| && out == src[..done] && looks == 2 * buffers && Unseen(|src|, ibs, interrupts, looks)
      invariant !last ==> !partial && done == Span(full, ibs) == Span(buffers, bufSize)
      invariant last ==> done == |src| && full == |src| / ibs && (partial <==> |src| % ibs != 0)
      invariant last ==> |src| < Span(buffers, bufSize)
      decreases !last, |src| - done
    {
      assert Looks(|src|, ibs, looks);
      if looks in interrupts {
        StopsHere(src, ibs, interrupts, looks, out);
        return Interrupted(out);
      }
      var n, records, cut, seen := CopyOne(src, ibs, bufSize, done, full, buffers, looks, interrupts);
      TakeMore(src, done, n);
      out, done := out + src[done..done + n], done + n;
      if seen {
        return Interrupted(out);
      }
      full, partial, last, looks, buffers := full + records, cut, n < bufSize, looks + 2, buffers + 1;
    }
    NoneSeen(|src|, ibs, interrupts, buffers);
    assert src[..|src|] == src;
    s := if broken then Failed(out) else Done(Report(out, full, partial));
  }

  /** A copy that ends by itself is the one at a time's, and one that is interrupted has written a prefix of it. */
  method Copy(src: seq<byte>, broken: bool, ibs: nat, interrupts: set<nat>) returns (s: Status)
    requires ibs > 0
    ensures s.Done? ==> !broken && s.report == OneByOne(src, ibs)
    ensures s.Failed? ==> broken && s.out == OneByOne(src, ibs).out
    ensures s.Interrupted? <==> Sees(|src|, ibs, interrupts)
    ensures s.Interrupted? ==> StopsAtFirst(src, ibs, interrupts, s.out) && s.out <= OneByOne(src, ibs).out
    ensures OneByOne(src, ibs).out == src
  {
    s := CopyBuffers(src, broken, ibs, interrupts);
    OneByOneIs(src, ibs);
  }

  /**
   dd of a file whose reads bring gives bytes of what is asked for, and then the end of the file or an error. An early
   end is taken for the file's: dd reports success, and has written what was asked if and only if no read fell short.
   */
  method Dd(file: seq<byte>, ibs: nat, skip: nat, count: Option<nat>, gives: nat, fails: bool, interrupts: set<nat>)
    returns (s: Status)
    requires ibs > 0
    ensures var asked := Asked(file, ibs, skip, count);
      && (s.Done? ==> s.report == OneByOne(Given(asked, gives), ibs))
      && (s.Done? ==> (s.report.out == asked <==> |asked| <= gives))
      && (s.Failed? ==> fails && gives < |asked| && s.out == asked[..gives])
      && (s.Interrupted? <==> Sees(|Given(asked, gives)|, ibs, interrupts))
      && (s.Interrupted? ==> StopsAtFirst(Given(asked, gives), ibs, interrupts, s.out) && s.out <= asked)
  {
    var off, limit := skip * ibs, if count.Some? then Some(count.value * ibs) else None;
    s := DdFrom(file, off, limit, ibs, gives, fails, interrupts);
  }

  /** The same from offset and limit: a section of the file, limited. */
  method DdFrom(file: seq<byte>, off: nat, limit: Option<nat>, ibs: nat, gives: nat, fails: bool, interrupts: set<nat>)
    returns (s: Status)
    requires ibs > 0
    ensures var asked := Section(file, off, limit);
      && (s.Done? ==> s.report == OneByOne(Given(asked, gives), ibs))
      && (s.Done? ==> (s.report.out == asked <==> |asked| <= gives))
      && (s.Failed? ==> fails && gives < |asked| && s.out == asked[..gives])
      && (s.Interrupted? <==> Sees(|Given(asked, gives)|, ibs, interrupts))
      && (s.Interrupted? ==> StopsAtFirst(Given(asked, gives), ibs, interrupts, s.out) && s.out <= asked)
  {
    var size := if |file| - off < 0 then 0 else |file| - off;
    var src := if size == 0 then [] else file[off..off + size];
    if limit.Some? && limit.value < |src| {
      src := src[..limit.value];
    }
    assert src == Section(file, off, limit);
    s := Copy(Given(src, gives), fails && gives < |src|, ibs, interrupts);
  }

  lemma SectionIs(file: seq<byte>, off: nat, limit: Option<nat>)
    requires off <= |file|
    ensures Section(file, off, limit) ==
              var end := if limit.None? then |file| else off + limit.value;
                  file[off..if end <= |file| then end else |file|]
  {
  }

  lemma SpansAdd(a: nat, b: nat, d: nat)
    ensures (a + b) * d == a * d + b * d
  {
  }

  /** So what is asked for is the file from skip*ibs to the smaller of its end and (skip+count)*ibs. */
  lemma AskedIs(file: seq<byte>, ibs: nat, skip: nat, count: Option<nat>)
    requires skip * ibs <= |file|
    ensures Asked(file, ibs, skip, count) ==
              var end := if count.None? then |file| else (skip + count.value) * ibs;
              file[skip * ibs..if end <= |file| then end else |file|]
  {
    SectionIs(file, skip * ibs, if count.Some? then Some(count.value * ibs) else None);
    if count.Some? {
      SpansAdd(skip, count.value, ibs);
    }
  }

  /** A run whose only read brings half a record: success, with the other half missing. */
  method ShortDd(a: byte, b: byte) returns (s: Status)
    ensures s == Done(Report([a], 0, true))
  {
    s := Dd([a, b], 2, 0, None, 1, false, {});
    assert Asked([a, b], 2, 0, None) == [a, b];
    assert Given([a, b], 1) == [a];
  }
}
