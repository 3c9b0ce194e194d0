/** The compress(1) reader: parallel prefix and suffix tables, and a stack holding the string being delivered. */
module LzwReader {
  import opened Bits
  import opened Streams
  import opened LzwDecoder

  /** Entries above the literals extend a smaller entry, never the clear code, by one byte. */
  ghost predicate TableHolds(prefix: array<nat>, suffix: array<byte>, t: Dictionary)
    reads prefix, suffix
  {
    && prefix.Length == suffix.Length == 65536
    && 256 <= |t.table| <= 65536
    && (forall c | 0 <= c < 256 :: suffix[c] == c && t.table[c] == [suffix[c]])
    && (forall c {:trigger prefix[c]} {:trigger t.table[c]} | 256 <= c < |t.table| && !(t.block && c == CLEAR) ::
          && prefix[c] < c
          && !(t.block && prefix[c] == CLEAR)
          && t.table[c] == t.table[prefix[c]] + [suffix[c]])
  }

  /** oldCode names the previous string, and finChar starts it. */
  ghost predicate PrevHolds(t: Dictionary, oldCode: int) {
    if oldCode == -1 then t.prev == []
    else 0 <= oldCode < |t.table| && t.table[oldCode] == t.prev != []
  }

  /** The stack is what is still to come of the string s, last byte first. */
  ghost predicate StackHolds(stack: seq<byte>, s: seq<byte>) {
    && |stack| <= |s|
    && forall j | 0 <= j < |stack| :: stack[j] == s[|s| - 1 - j]
  }

  /** The first k of the last n bytes of cur. */
  ghost function Piece(cur: seq<byte>, n: nat, k: nat): (s: seq<byte>)
    requires k <= n <= |cur|
  {
    seq(k, i requires 0 <= i < k => cur[|cur| - n + i])
  }

  /** What is to come when n bytes of the string cur are not yet delivered. */
  ghost function Owed(t: Dictionary, c: Cursor, cur: seq<byte>, n: nat): (o: Outcome)
    requires DictionaryOK(t) && CursorOK(c, t.maxBits) && n <= |cur|
  {
    if n == 0 then Run(t, c) else Prepend(Piece(cur, n, n), Run(Learn(t, cur), c))
  }

  /** The dictionary when n bytes of the string cur are not yet delivered. */
  ghost function Taught(t: Dictionary, cur: seq<byte>, n: nat): (r: Dictionary)
    requires DictionaryOK(t) && cur != []
    ensures DictionaryOK(r) && r.maxBits == t.maxBits
  {
    if n == 0 then Learn(t, cur) else t
  }

  class Reader {
    var input: seq<byte>   // not yet read
    const faulty: bool     // the input ends in a read error
    var err: Option<Error> // sticky

    var nBits: nat
    const maxBits: nat
    var maxCode: int
    const maxMaxCode: int
    var freeEnt: nat
    const blockCompress: bool
    var clearFlg: bool

    const prefix: array<nat>
    const suffix: array<byte>

    var stack: seq<byte>   // the current string, last byte first
    var finChar: byte
    var oldCode: int
    var incode: nat

    const gbuf: array<byte>
    var rOffset: nat
    var size: int

    ghost var t: Dictionary   // the dictionary before the current string is learnt
    ghost var c: Cursor
    ghost var cur: seq<byte>  // the string the stack is part of

    ghost predicate CursorHolds()
      reads `nBits, `clearFlg, `rOffset, `size, `input, `maxCode, `c, gbuf
    {
      && 12 <= maxBits && maxMaxCode == Pow2(maxBits) && CursorOK(c, maxBits)
      && c == Cursor(nBits, clearFlg, gbuf[..], rOffset, size, input, faulty)
      && maxCode == Limit(maxBits, nBits)
    }

    ghost predicate DictionaryHolds()
      reads `t, `freeEnt, `oldCode, prefix, suffix
    {
      && DictionaryOK(t)
      && t.block == blockCompress && t.maxBits == maxBits && |t.table| == freeEnt
      && TableHolds(prefix, suffix, t)
      && PrevHolds(t, oldCode)
    }

    ghost predicate StringHolds()
      reads `t, `stack, `cur, `finChar, `incode
    {
      if stack == [] then
        t.prev != [] ==> finChar == t.prev[0]
      else
        && StackHolds(stack, cur)
        && finChar == cur[0]
        && incode < Pow2(t.maxBits)
        && StringOf(t, incode) == cur
    }

    predicate Distinct() {
      prefix as object != suffix && prefix as object != gbuf && suffix != gbuf
    }

    ghost predicate Valid()
      reads this, prefix, suffix, gbuf
    {
      && Distinct()
      && if err.Some? then stack == [] else CursorHolds() && DictionaryHolds() && StringHolds()
    }

    /** Everything this reader will still deliver. */
    ghost function Future(): Outcome
      reads this, prefix, suffix, gbuf
      requires Valid()
    {
      if err.Some? then Outcome([], err.value) else Owed(t, c, cur, |stack|)
    }

    constructor (maxBits: nat, blockCompress: bool, input: seq<byte>, faulty: bool)
      requires 12 <= maxBits <= BITS
      ensures Valid() && fresh(prefix) && fresh(suffix) && fresh(gbuf)
      ensures Future() == Run(Fresh(blockCompress, maxBits), Start(seq(BITS, _ => 0), input, faulty))
    {
      this.input, this.faulty, this.err := input, faulty, None;
      this.nBits, this.maxBits, this.maxCode := INIT_BITS, maxBits, Pow2(INIT_BITS) - 1;
      this.maxMaxCode := Pow2(maxBits);
      this.freeEnt := if blockCompress then 257 else 256;
      this.blockCompress, this.clearFlg := blockCompress, false;
      this.prefix := new nat[65536](_ => 0);
      this.suffix := new byte[65536](i => if 0 <= i < 256 then i else 0);
      this.stack, this.finChar, this.oldCode, this.incode := [], 0, -1, 0;
      this.gbuf := new byte[BITS](_ => 0);
      this.rOffset, this.size := 0, 0;
      this.t := Fresh(blockCompress, maxBits);
      this.c := Start(seq(BITS, _ => 0), input, faulty);
      this.cur := [];
      new;
      assert gbuf[..] == c.group;
    }

    method Widen()
      requires CursorHolds() && freeEnt <= maxMaxCode
      modifies this`nBits, this`maxCode, this`clearFlg
      ensures nBits == NextWidth(c, maxBits, freeEnt) <= maxBits && maxCode == Limit(maxBits, nBits) && !clearFlg
    {
      if freeEnt > maxCode {
        nBits := nBits + 1;
        maxCode := if nBits == maxBits then maxMaxCode else Pow2(nBits) - 1;
      }
      if clearFlg {
        nBits, maxCode, clearFlg := INIT_BITS, Pow2(INIT_BITS) - 1, false;
      }
    }

    method Load(got: nat)
      requires got <= |input| && got <= gbuf.Length
      modifies gbuf
      ensures gbuf[..] == input[..got] + old(gbuf[..])[got..]
    {
      forall i | 0 <= i < got {
        gbuf[i] := input[i];
      }
    }

    /** Starts a new group when the present one is used up, cleared or of codes too narrow. */
    method Refill() returns (error: Option<Error>)
      requires CursorHolds() && freeEnt <= maxMaxCode
      modifies this`nBits, this`maxCode, this`clearFlg, this`input, this`rOffset, this`size, this`c, gbuf
      ensures match ReadyGroup(old(c), maxBits, freeEnt)
              case NoGroup(e) => error == Some(e)
              case Ready(after) => error.None? && c == after && CursorHolds()
    {
      if !(clearFlg || rOffset >= size || freeEnt > maxCode) {
        return None;
      }
      Widen();
      var got := if nBits <= |input| then nBits else |input|;
      Load(got);
      if got < nBits && faulty {
        return Some(ReadFailed);
      }
      if got == 0 {
        return Some(EndOfData);
      }
      input := input[got..];
      rOffset, size := 0, 8 * got - (nBits - 1);
      c := TakeGroup(c, nBits);
      error := None;
    }

    /** Cuts the next code out of the input. */
    method GetCode() returns (code: nat, error: Option<Error>)
      requires CursorHolds() && freeEnt <= maxMaxCode
      modifies this`nBits, this`maxCode, this`clearFlg, this`input, this`rOffset, this`size, this`c, gbuf
      ensures match NextCode(old(c), maxBits, freeEnt)
              case NoCode(e) => error == Some(e)
              case Code(next, after) => error.None? && code == next < maxMaxCode && c == after && CursorHolds()
    {
      CodeBound(c, maxBits, freeEnt);
      code := 0;
      error := Refill();
      if error.None? {
        code := CutCode(gbuf, rOffset / 8, rOffset % 8, nBits);
        rOffset := rOffset + nBits;
        c := c.(off := c.off + c.width);
      }
    }

    /** Walks back from a code to a literal, pushing its string: what the stack lacked of s. */
    method Unwind(from: nat, ghost s: seq<byte>)
      requires TableHolds(prefix, suffix, t) && from < |t.table| && !(t.block && from == CLEAR)
      requires StackHolds(stack, s) && |s| == |t.table[from]| + |stack| && t.table[from] == s[..|t.table[from]|]
      modifies this`stack, this`finChar
      ensures StackHolds(stack, s) && |stack| == |s| > 0 && finChar == s[0]
    {
      var code: nat := from;
      while code >= 256
        invariant code < |t.table| && !(t.block && code == CLEAR)
        invariant TableHolds(prefix, suffix, t)
        invariant StackHolds(stack, s)
        invariant |s| == |t.table[code]| + |stack|
        invariant t.table[code] == s[..|t.table[code]|]
      {
        PushStep(stack, s, t.table[prefix[code]], suffix[code]);
        stack := stack + [suffix[code]];
        code := prefix[code];
      }
      finChar := suffix[code];
      PushStep(stack, s, [], finChar);
      stack := stack + [finChar];
    }

    /** Stacks the string of a code; a code past the table is the KwKwK string or corrupt data. */
    method Expand(inCode: nat) returns (ok: bool)
      requires DictionaryHolds() && stack == [] && StringHolds() && inCode < Pow2(maxBits)
      requires !(blockCompress && inCode == CLEAR)
      modifies this`stack, this`finChar, this`incode, this`cur
      ensures ok == (StringOf(t, inCode) != [])
      ensures !ok ==> stack == []
      ensures ok ==> StringOf(t, inCode) == cur && |stack| == |cur| && StringHolds()
    {
      var code := inCode;
      if code >= freeEnt {
        if code > freeEnt || oldCode == -1 {
          return false;
        }
        stack := stack + [finChar];
        code := oldCode;
      }
      cur := StringOf(t, inCode);
      Unwind(code, cur);
      incode := inCode;
      ok := true;
    }

    method Clear()
      requires CursorHolds() && DictionaryHolds() && blockCompress && prefix as object != suffix && stack == []
      modifies this`clearFlg, this`freeEnt, this`oldCode, this`c, this`t
      ensures CursorHolds() && DictionaryHolds() && StringHolds()
      ensures t == Fresh(true, maxBits) && c == old(c).(cleared := true)
    {
      clearFlg, freeEnt, oldCode := true, 257, -1;
      c, t := c.(cleared := true), Fresh(true, maxBits);
      LiteralsOnly(prefix, suffix, t);
    }

    /** One code: a string is stacked, or a clear code leaves the same to come, or the data is corrupt. */
    method OnCode(code: nat, ghost c0: Cursor) returns (again: bool, error: Option<Error>)
      requires Distinct() && CursorHolds() && DictionaryHolds() && StringHolds() && stack == []
      requires CursorOK(c0, maxBits) && NextCode(c0, maxBits, freeEnt) == Code(code, c) && code < maxMaxCode
      modifies this`clearFlg, this`c, this`freeEnt, this`oldCode, this`t, this`stack, this`finChar, this`incode,
          this`cur
      ensures error.Some? ==> !again && stack == [] && Run(old(t), c0) == Outcome([], error.value)
      ensures error.None? ==> CursorHolds() && DictionaryHolds() && StringHolds()
      ensures again ==> stack == [] && Run(old(t), c0) == Run(t, c) && c == old(c).(cleared := true)
      ensures error.None? && !again ==> stack != [] && |stack| == |cur|
      ensures error.None? && !again ==> Run(old(t), c0) == Prepend(cur, Run(Learn(t, cur), c))
    {
      again, error := false, None;
      if code == CLEAR && blockCompress {
        Clear();
        again := true;
      } else {
        var ok := Expand(code);
        error := if ok then None else Some(Corrupt);
      }
    }

    method Step() returns (again: bool, error: Option<Error>)
      requires Distinct() && CursorHolds() && DictionaryHolds() && StringHolds() && stack == []
      modifies this`nBits, this`maxCode, this`clearFlg, this`input, this`rOffset, this`size, this`c, gbuf
      modifies this`freeEnt, this`oldCode, this`t, this`stack, this`finChar, this`incode, this`cur
      ensures error.Some? ==> !again && stack == [] && Run(old(t), old(c)) == Outcome([], error.value)
      ensures error.None? ==> CursorHolds() && DictionaryHolds() && StringHolds()
      ensures again ==> stack == [] && Run(old(t), old(c)) == Run(t, c)
      ensures again ==> |c.rest| < old(|c.rest|) || (|c.rest| == old(|c.rest|) && Unused(c) < old(Unused(c)))
      ensures error.None? && !again ==> stack != [] && |stack| == |cur|
      ensures error.None? && !again ==> Run(old(t), old(c)) == Prepend(cur, Run(Learn(t, cur), c))
    {
      ghost var c0 := c;
      var code;
      code, error := GetCode();
      again := false;
      if error.None? {
        again, error := OnCode(code, c0);
      }
    }

    /** Reads codes until one gives a string, and stacks that string. */
    method Decode() returns (error: Option<Error>)
      requires Valid() && err.None? && stack == []
      modifies this`nBits, this`maxCode, this`clearFlg, this`input, this`rOffset, this`size, this`c, gbuf
      modifies this`freeEnt, this`oldCode, this`t, this`stack, this`finChar, this`incode, this`cur
      ensures error.Some? ==> stack == [] && Run(old(t), old(c)) == Outcome([], error.value)
      ensures error.None? ==> Valid() && stack != [] && |stack| == |cur|
                              && Run(old(t), old(c)) == Prepend(cur, Run(Learn(t, cur), c))
    {
      var again := true;
      error := None;
      while again
        invariant error.None? ==> CursorHolds() && DictionaryHolds() && StringHolds()
        invariant again ==> error.None? && stack == [] && Run(t, c) == Run(old(t), old(c))
        invariant error.Some? ==> stack == [] && Run(old(t), old(c)) == Outcome([], error.value)
        invariant !again && error.None? ==> stack != [] && |stack| == |cur|
        invariant !again && error.None? ==> Run(old(t), old(c)) == Prepend(cur, Run(Learn(t, cur), c))
        decreases again, |c.rest|, Unused(c)
      {
        again, error := Step();
      }
    }

    /** Adds the entry the delivered string completes, and remembers its code. */
    method NewEntry()
      requires DictionaryHolds() && maxMaxCode == Pow2(maxBits)
      requires cur != [] && finChar == cur[0] && incode < maxMaxCode && StringOf(t, incode) == cur
      requires prefix as object != suffix
      modifies this`freeEnt, this`oldCode, this`t, prefix, suffix
      ensures DictionaryHolds() && t == Learn(old(t), cur)
    {
      assert maxMaxCode <= 65536 by { Pow2Monotone(maxBits, BITS); Pow2Values(); }
      var code := freeEnt;
      if code < maxMaxCode && oldCode != -1 {
        prefix[code] := oldCode;
        suffix[code] := finChar;
        freeEnt := code + 1;
      }
      oldCode := incode;
      t := Learn(t, cur);
    }

    method CopyOut(p: array<byte>, n: nat, k: nat, ghost done: seq<byte>)
      requires Filled(p, n, done)
      requires StackHolds(stack, cur) && k <= |stack| && n + k <= p.Length
      modifies p
      ensures Filled(p, n + k, done + Piece(cur, |stack|, k))
    {
      for i := 0 to k
        invariant Filled(p, n + i, done + Piece(cur, |stack|, i))
      {
        p[n + i] := stack[|stack| - 1 - i];
      }
    }

    /** Delivers what fits of the current string, and learns the string once it is all out. */
    method Deliver(p: array<byte>, n: nat, ghost done: seq<byte>) returns (k: nat)
      requires prefix as object != suffix && DictionaryHolds() && StringHolds() && stack != [] && n < p.Length
      requires p as object != prefix && p != suffix && Filled(p, n, done) && maxMaxCode == Pow2(maxBits)
      modifies this`stack, this`freeEnt, this`oldCode, this`t, prefix, suffix, p
      ensures DictionaryHolds() == true && StringHolds()
      ensures 0 < k <= p.Length - n && |stack| == |old(stack)| - k
      ensures stack == [] || n + k == p.Length
      ensures Filled(p, n + k, done + Piece(cur, |old(stack)|, k))
      ensures t == Taught(old(t), cur, |stack|)
    {
      k := if |stack| <= p.Length - n then |stack| else p.Length - n;
      CopyOut(p, n, k, done);
      stack := stack[..|stack| - k];
      if stack == [] {
        NewEntry();
      }
    }

    method DeliverMore(p: array<byte>, n: nat, ghost done: seq<byte>, ghost goal: Outcome)
      returns (k: nat, ghost done': seq<byte>)
      requires Valid() && err.None? && stack != [] && n < p.Length
      requires p as object != prefix && p != suffix && p != gbuf && Filled(p, n, done)
      requires goal == Prepend(done, Future())
      modifies this`stack, this`freeEnt, this`oldCode, this`t, prefix, suffix, p
      ensures Valid() == true && 0 < k <= p.Length - n
      ensures goal == Prepend(done', Future())
      ensures Filled(p, n + k, done')
    {
      ghost var t0, size := t, |stack|;
      k := Deliver(p, n, done);
      OwedAfter(t0, c, cur, size, k, done);
      done' := done + Piece(cur, size, k);
    }

    /** Stacks the next string or records the end; neither changes what is to come. */
    method Advance()
      requires Valid() && err.None? && stack == []
      modifies this, gbuf
      ensures Valid() && Future() == old(Future())
      ensures err.Some? || stack != []
    {
      ghost var t0, c0 := t, c;
      err := Decode();
      OwedNext(t0, c0, t, c, cur, err);
    }

    /** Fills p until it is full or the stream has ended. */
    method Fill(p: array<byte>) returns (n: nat, ghost done: seq<byte>)
      requires Valid()
      requires p as object != prefix && p != suffix && p != gbuf
      modifies this, prefix, suffix, gbuf, p
      ensures Valid() && Filled(p, n, done)
      ensures old(Future()) == Prepend(done, Future())
      ensures n < p.Length ==> err.Some?
    {
      n, done := 0, [];
      while n < p.Length
        invariant Valid() == true && Filled(p, n, done)
        invariant old(Future()) == Prepend(done, Future())
        decreases p.Length - n, stack == [], err.None?
      {
        if |stack| > 0 {
          var k;
          k, done := DeliverMore(p, n, done, old(Future()));
          n := n + k;
          continue;
        }
        if err.Some? {
          break;
        }
        Advance();
      }
    }

    /**
     Reads the stream into p. What was to come is what was read and what is still to come, however
     the reads cut it; the stream's end is reported once nothing is left.
     */
    method Read(p: array<byte>) returns (n: nat, error: Option<Error>)
      requires Valid()
      requires p as object != prefix && p != suffix && p != gbuf
      modifies this, prefix, suffix, gbuf, p
      ensures Valid() && n <= p.Length
      ensures old(Future()) == Prepend(p[..n], Future())
      ensures n < p.Length ==> Future().bytes == []
      ensures error == if n == 0 && p.Length > 0 then Some(Future().end) else None
    {
      if p.Length == 0 {
        return 0, None;
      }
      ghost var done;
      n, done := Fill(p);
      assert done == p[..n];
      error := if n > 0 then None else err;
    }
  }

  lemma OwedNext(t0: Dictionary, c0: Cursor, t: Dictionary, c: Cursor, cur: seq<byte>, err: Option<Error>)
    requires DictionaryOK(t0) && CursorOK(c0, t0.maxBits)
    requires err.None? ==> DictionaryOK(t) && CursorOK(c, t.maxBits) && cur != []
    requires Run(t0, c0) == if err.Some? then Outcome([], err.value) else Prepend(cur, Run(Learn(t, cur), c))
    ensures Run(t0, c0) == if err.Some? then Outcome([], err.value) else Owed(t, c, cur, |cur|)
  {
    if err.None? {
      assert Piece(cur, |cur|, |cur|) == cur;
    }
  }

  lemma PieceSplit(cur: seq<byte>, n: nat, k: nat, done: seq<byte>, tail: Outcome)
    requires k <= n <= |cur|
    ensures Prepend(done, Prepend(Piece(cur, n, n), tail))
         == Prepend(done + Piece(cur, n, k), Prepend(Piece(cur, n - k, n - k), tail))
  {
    assert Piece(cur, n, n) == Piece(cur, n, k) + Piece(cur, n - k, n - k);
  }

  /** Delivering k bytes more of the string moves them from what is to come to what is done. */
  lemma OwedAfter(t: Dictionary, c: Cursor, cur: seq<byte>, n: nat, k: nat, done: seq<byte>)
    requires DictionaryOK(t) && CursorOK(c, t.maxBits) && k <= n <= |cur| && 0 < n
    ensures Prepend(done, Owed(t, c, cur, n))
         == Prepend(done + Piece(cur, n, k), Owed(Taught(t, cur, n - k), c, cur, n - k))
  {
    PieceSplit(cur, n, k, done, Run(Learn(t, cur), c));
  }

  lemma LiteralsOnly(prefix: array<nat>, suffix: array<byte>, t: Dictionary)
    requires prefix.Length == suffix.Length == 65536 && forall c | 0 <= c < 256 :: suffix[c] == c
    requires 12 <= t.maxBits <= BITS && t == Fresh(t.block, t.maxBits)
    ensures TableHolds(prefix, suffix, t)
  {
  }

  lemma PushStep(stack: seq<byte>, s: seq<byte>, head: seq<byte>, b: byte)
    requires StackHolds(stack, s) && |s| == |head| + 1 + |stack| && head + [b] == s[..|head| + 1]
    ensures StackHolds(stack + [b], s) && head == s[..|head|] && s[|head|] == b
  {
    assert head == (head + [b])[..|head|] && b == (head + [b])[|head|];
  }

  lemma CutFirst(buf: seq<byte>, at: nat, r: nat)
    requires at < |buf| && r < 8
    ensures Shr(buf[at], r) == Slice(BitsOf(buf), 8 * at + r, 8 - r)
  {
    SliceInByte(buf, BitsOf(buf), at, r, 8 * at + r, 8 - r);
    assert buf[at] < Pow2(8) by { Pow2Values(); }
    ShrBound(buf[at], r, 8);
    LowSmall(Shr(buf[at], r), 8 - r);
  }

  lemma CutNext(buf: seq<byte>, off: nat, shift: nat, at: nat, n: nat)
    requires at < |buf| && n <= 8 && off + shift == 8 * at
    ensures Or(Slice(BitsOf(buf), off, shift), Shl(Low(buf[at], n), shift)) == Slice(BitsOf(buf), off, shift + n)
  {
    var bits := BitsOf(buf);
    SliceInByte(buf, bits, at, 0, off + shift, n);
    assert Slice(bits, off + shift, n) == Low(buf[at], n);
    SliceSplit(bits, off, shift, n);
    SliceBound(bits, off, shift);
    OrDisjoint(Slice(bits, off, shift), Low(buf[at], n), shift);
  }

  lemma CutWhole(buf: seq<byte>, off: nat, shift: nat, at: nat)
    requires at < |buf| && off + shift == 8 * at
    ensures Or(Slice(BitsOf(buf), off, shift), Shl(buf[at], shift)) == Slice(BitsOf(buf), off, shift + 8)
  {
    assert buf[at] < Pow2(8) by { Pow2Values(); }
    LowSmall(buf[at], 8);
    CutNext(buf, off, shift, at, 8);
  }

  /** Assembles a code of n bits from bit r of byte bp on: the rest of that byte, a whole byte, and the last bits. */
  method CutCode(gbuf: array<byte>, bp: nat, r: nat, n: nat) returns (code: nat)
    requires r < 8 && 9 <= n <= 16 && 8 * bp + r + n <= 8 * gbuf.Length
    ensures code == Slice(BitsOf(gbuf[..]), 8 * bp + r, n)
  {
    var buf := gbuf[..];
    ghost var bits, off := BitsOf(buf), 8 * bp + r;
    var at := bp;
    code := Shr(buf[at], r);
    CutFirst(buf, at, r);
    at := at + 1;
    var nb, shift := n - (8 - r), 8 - r;
    assert code == Slice(bits, off, shift);
    if nb >= 8 {
      CutWhole(buf, off, shift, at);
      code := Or(code, Shl(buf[at], shift));
      at, shift, nb := at + 1, shift + 8, nb - 8;
    }
    assert code == Slice(bits, off, shift);
    if nb > 0 {
      CutNext(buf, off, shift, at, nb);
      code := Or(code, Shl(Low(buf[at], nb), shift));
    }
  }

  // ----- opening a stream

  /** Magic, then a byte with the block-mode flag and the largest code width. */
  predicate HeaderAccepted(data: seq<byte>) {
    |data| >= 3 && data[0] == 0x1f && data[1] == 0x9d && 12 <= Low(data[2], 5) <= BITS
  }

  /** What a stream holds. */
  function Contents(data: seq<byte>, faulty: bool): (o: Outcome)
    requires HeaderAccepted(data)
  {
    Run(Fresh(Shr(data[2], 7) == 1, Low(data[2], 5)), Start(seq(BITS, _ => 0), data[3..], faulty))
  }

  method NewReader(data: seq<byte>, faulty: bool) returns (z: Reader?, error: Option<Error>)
    ensures HeaderAccepted(data) <==> error.None?
    ensures error.Some? ==> error.value == (if |data| < 3 && faulty then ReadFailed else Corrupt)
    ensures error.None? ==> z != null && fresh(z) && fresh(z.prefix) && fresh(z.suffix) && fresh(z.gbuf)
                            && z.Valid() && z.Future() == Contents(data, faulty)
  {
    if |data| < 3 {
      return null, Some(if faulty then ReadFailed else Corrupt);
    }
    if !(data[0] == 0x1f && data[1] == 0x9d) {
      return null, Some(Corrupt);
    }
    var maxBits := Low(data[2], 5);
    if maxBits > BITS || maxBits < 12 {
      return null, Some(Corrupt);
    }
    z := new Reader(maxBits, Shr(data[2], 7) == 1, data[3..], faulty);
    error := None;
  }

  /** Reads on with buffers of the given sizes until one reports the end. */
  method ReadOn(z: Reader, sizes: seq<nat>) returns (out: seq<byte>, error: Option<Error>)
    requires z.Valid()
    modifies z, z.prefix, z.suffix, z.gbuf
    ensures z.Valid() == true && old(z.Future()) == Prepend(out, z.Future())
    ensures error.Some? ==> z.Future() == Outcome([], error.value)
    ensures error.None? && z.Future().bytes != [] ==> |out| == Sum(sizes)
    decreases |sizes|
  {
    out, error := [], None;
    if sizes != [] {
      var last := |sizes| - 1;
      out, error := ReadOn(z, sizes[..last]);
      if error.None? {
        var p := new byte[sizes[last]](_ => 0);
        var n;
        n, error := z.Read(p);
        PrependTwice(out, p[..n], z.Future());
        out := out + p[..n];
      }
    }
  }

  function Sum(sizes: seq<nat>): nat {
    if sizes == [] then 0 else Sum(sizes[..|sizes| - 1]) + sizes[|sizes| - 1]
  }

  /** Whatever the sizes of the buffers it is read with, a stream gives its contents in order, then its end. */
  method ReadStream(data: seq<byte>, faulty: bool, sizes: seq<nat>) returns (out: seq<byte>, error: Option<Error>)
    requires HeaderAccepted(data)
    ensures out <= Contents(data, faulty).bytes
    ensures error.Some? ==> Contents(data, faulty) == Outcome(out, error.value)
    ensures error.None? && out != Contents(data, faulty).bytes ==> |out| == Sum(sizes)
  {
    var z;
    z, error := NewReader(data, faulty);
    out, error := ReadOn(z, sizes);
    assert out + [] == out;
  }
}
