/**
 The duplicate request cache of the UDP server: a ring of the replies to the last 64 calls that must not run twice.
 */
module ReplyCache {
  import opened Bits
  import opened Streams
  import Xdr

  const SLOTS := 64
  const NFS := 100003

  function WordAt(pkt: seq<byte>, at: nat): nat
    requires at + 4 <= |pkt|
  {
    0x1000000 * (pkt[at] as int) + 0x10000 * (pkt[at + 1] as int) + 0x100 * (pkt[at + 2] as int) + pkt[at + 3]
  }

  /** A call whose second execution could fail or do harm: program, version and procedure say so. */
  predicate NonIdempotent(pkt: seq<byte>) {
    && |pkt| >= 24
    && WordAt(pkt, 12) == NFS
    && var version, procedure := WordAt(pkt, 16), WordAt(pkt, 20);
       || (version == 2 && (procedure == 2 || 9 <= procedure <= 15))
       || (version == 3 && (procedure == 2 || 8 <= procedure <= 15))
  }

  /** The procedures of versions 2 and 3. */
  datatype Operation =
    | Null | Getattr | Setattr | Root | Lookup | Access | Readlink | Read | Writecache | Write | Create | Mkdir
    | Symlink | Mknod | Remove | Rmdir | Rename | Link | Readdir | Readdirplus | Statfs | Fsinfo | Pathconf | Commit

  /** Their numbers in version 2, section 2.2 of RFC 1094. */
  function Version2(): seq<Operation> {
    [Null, Getattr, Setattr, Root, Lookup, Readlink, Read, Writecache, Write, Create, Remove, Rename, Link, Symlink,
     Mkdir, Rmdir, Readdir, Statfs]
  }

  /** And in version 3, section 3.3 of RFC 1813. */
  function Version3(): seq<Operation> {
    [Null, Getattr, Setattr, Lookup, Access, Readlink, Read, Write, Create, Mkdir, Symlink, Mknod, Remove, Rmdir,
        Rename,
     Link, Readdir, Readdirplus, Statfs, Fsinfo, Pathconf, Commit]
  }

  function Operations(version: nat): seq<Operation> {
    if version == 2 then Version2() else if version == 3 then Version3() else []
  }

  /** Changes that a second execution would refuse or do again. */
  predicate Repeats(op: Operation) {
    op.Setattr? || op.Create? || op.Mkdir? || op.Symlink? || op.Mknod? || op.Remove? || op.Rmdir? || op.Rename? ||
        op.Link?
  }

  lemma RepeatsIn2(n: nat)
    requires n < |Version2()|
    ensures Repeats(Version2()[n]) <==> n == 2 || 9 <= n <= 15
  {
  }

  lemma RepeatsIn3(n: nat)
    requires n < |Version3()|
    ensures Repeats(Version3()[n]) <==> n == 2 || 8 <= n <= 15
  {
  }

  /** The calls kept are those of an operation of either version that may not be repeated. */
  lemma NonIdempotentIs(pkt: seq<byte>)
    ensures NonIdempotent(pkt) <==>
              && |pkt| >= 24 && WordAt(pkt, 12) == NFS
              && var operations, n := Operations(WordAt(pkt, 16)), WordAt(pkt, 20);
                 n < |operations| && Repeats(operations[n])
  {
    if |pkt| >= 24 {
      var n := WordAt(pkt, 20);
      if n < |Version2()| {
        RepeatsIn2(n);
      }
      if n < |Version3()| {
        RepeatsIn3(n);
      }
    }
  }

  /** A call as it is sent, section 9 of RFC 5531: number, call, version 2, and what is to be run. */
  function CallBytes(xid: nat, program: nat, version: nat, procedure: nat, rest: seq<byte>): seq<byte> {
    Xdr.Word(xid) + Xdr.Word(0) + Xdr.Word(2)
      + (Xdr.Word(program) + (Xdr.Word(version) + (Xdr.Word(procedure) + rest)))
  }

  lemma WordIs(v: nat, head: seq<byte>, rest: seq<byte>)
    requires v < 0x1_0000_0000
    ensures WordAt(head + (Xdr.Word(v) + rest), |head|) == v
  {
    var b := Xdr.Word(v) + rest;
    Xdr.WordRead(v, rest);
    assert forall i | 0 <= i < 4 :: (head + b)[|head| + i] == b[i];
  }

  lemma CallRead(xid: nat, program: nat, version: nat, procedure: nat, rest: seq<byte>)
    requires program < 0x1_0000_0000 && version < 0x1_0000_0000 && procedure < 0x1_0000_0000
    ensures var pkt := CallBytes(xid, program, version, procedure, rest);
      |pkt| >= 24 && WordAt(pkt, 12) == program && WordAt(pkt, 16) == version && WordAt(pkt, 20) == procedure
  {
    var head := Xdr.Word(xid) + Xdr.Word(0) + Xdr.Word(2);
    var p, v, q := Xdr.Word(program), Xdr.Word(version), Xdr.Word(procedure);
    WordIs(program, head, v + (q + rest));
    assert head + (p + (v + (q + rest))) == (head + p) + (v + (q + rest)) == (head + p + v) + (q + rest);
    WordIs(version, head + p, q + rest);
    WordIs(procedure, head + p + v, rest);
  }

  /** Of the calls that a client makes, those kept are the ones of these operations. */
  lemma CallsKept(xid: nat, program: nat, version: nat, procedure: nat, rest: seq<byte>)
    requires program < 0x1_0000_0000 && version < 0x1_0000_0000 && procedure < 0x1_0000_0000
    ensures NonIdempotent(CallBytes(xid, program, version, procedure, rest)) <==>
              program == 100003 && procedure < |Operations(version)| && Repeats(Operations(version)[procedure])
  {
    CallRead(xid, program, version, procedure, rest);
    NonIdempotentIs(CallBytes(xid, program, version, procedure, rest));
  }

  datatype Entry = Entry(addr: string, call: seq<byte>, reply: Option<seq<byte>>)

  /** A datagram, whether its sender may speak to the server, and what running it now would answer. */
  datatype Call = Call(addr: string, pkt: seq<byte>, allowed: bool, answer: Option<seq<byte>>)

  datatype Served = Served(executed: bool, reply: Option<seq<byte>>)

  // ----- what a run does

  /** Entry h of all that were ever stored is among the last 64. */
  predicate Live(kept: seq<Entry>, h: int) { 0 <= h < |kept| && |kept| - SLOTS <= h }

  predicate Matches(e: Entry, addr: string, pkt: seq<byte>) { e.addr == addr && e.call == pkt }

  /** The live entry of a call below n, newest first; -1 if there is none. */
  function Find(kept: seq<Entry>, addr: string, pkt: seq<byte>, n: nat): (h: int)
    requires n <= |kept|
    ensures h == -1 || (h < n && Live(kept, h) && Matches(kept[h], addr, pkt))
    ensures forall k | h < k < n && Live(kept, k) :: !Matches(kept[k], addr, pkt)
    decreases n, kept
  {
    if n == 0 || !Live(kept, n - 1) then -1
    else if Matches(kept[n - 1], addr, pkt) then n - 1
    else Find(kept, addr, pkt, n - 1)
  }

  /** A call kept is answered from the cache, all others are run. */
  function Answer(kept: seq<Entry>, c: Call): (s: Served) {
    if !c.allowed then Served(false, None)
    else
      var h := if NonIdempotent(c.pkt) then Find(kept, c.addr, c.pkt, |kept|) else -1;
      if h >= 0 then Served(false, kept[h].reply) else Served(true, c.answer)
  }

  function Store(kept: seq<Entry>, c: Call): seq<Entry> {
    if Answer(kept, c).executed && NonIdempotent(c.pkt) then kept + [Entry(c.addr, c.pkt, c.answer)] else kept
  }

  /** All that was stored in the first n calls. */
  function Kept(calls: seq<Call>, n: nat): seq<Entry>
    requires n <= |calls|
  {
    if n == 0 then [] else Store(Kept(calls, n - 1), calls[n - 1])
  }

  lemma {:induction false} KeptGrows(calls: seq<Call>, i: nat, j: nat)
    requires i <= j <= |calls|
    ensures Kept(calls, i) <= Kept(calls, j)
    decreases j
  {
    if i < j {
      KeptGrows(calls, i, j - 1);
    }
  }

  /** No sender's call has two live entries. */
  lemma {:induction false} NoTwoSlots(calls: seq<Call>, n: nat, g: nat, h: nat)
    requires n <= |calls| && g < h && Live(Kept(calls, n), g) && Live(Kept(calls, n), h)
    ensures !Matches(Kept(calls, n)[g], Kept(calls, n)[h].addr, Kept(calls, n)[h].call)
  {
    var before := Kept(calls, n - 1);
    if h < |before| {
      NoTwoSlots(calls, n - 1, g, h);
    } else {
      assert Live(before, g);
    }
  }

  /** A live entry is the one found for its call. */
  predicate Foremost(kept: seq<Entry>, h: nat)
    requires Live(kept, h)
  {
    Find(kept, kept[h].addr, kept[h].call, |kept|) == h
  }

  ghost predicate OneEach(kept: seq<Entry>) {
    forall h {:trigger Foremost(kept, h)} | Live(kept, h) :: Foremost(kept, h)
  }

  lemma KeptOneEach(calls: seq<Call>, n: nat)
    requires n <= |calls|
    ensures OneEach(Kept(calls, n))
  {
    var kept := Kept(calls, n);
    forall h | Live(kept, h) ensures Foremost(kept, h) {
      var g := Find(kept, kept[h].addr, kept[h].call, |kept|);
      if h < g {
        NoTwoSlots(calls, n, h, g);
      }
    }
  }

  lemma FindOwn(kept: seq<Entry>, h: nat, e: Entry)
    requires OneEach(kept) && Live(kept, h) && kept[h] == e
    ensures Find(kept, e.addr, e.call, |kept|) == h
  {
    assert Foremost(kept, h);
  }

  /**
   A resend of a call that was run, with fewer than 64 such calls run and stored between the two, gets the reply of the
   first and is not run again.
   */
  lemma ResendAnswered(calls: seq<Call>, i: nat, j: nat)
    requires i < j < |calls| && NonIdempotent(calls[i].pkt) && Answer(Kept(calls, i), calls[i]).executed
    requires calls[j].allowed && calls[j].addr == calls[i].addr && calls[j].pkt == calls[i].pkt
    requires |Kept(calls, j)| - |Kept(calls, i + 1)| < SLOTS
    ensures Answer(Kept(calls, j), calls[j]) == Served(false, Answer(Kept(calls, i), calls[i]).reply)
  {
    var kept, c, own := Kept(calls, j), calls[j], |Kept(calls, i)|;
    KeptGrows(calls, i + 1, j);
    var e := Entry(c.addr, c.pkt, calls[i].answer);
    assert Kept(calls, i + 1)[own] == e == kept[own];
    KeptOneEach(calls, j);
    FindOwn(kept, own, e);
  }

  lemma {:induction false} StoredBy(calls: seq<Call>, n: nat, h: nat) returns (i: nat)
    requires n <= |calls| && h < |Kept(calls, n)|
    ensures i < n && |Kept(calls, i)| == h && NonIdempotent(calls[i].pkt) && Answer(Kept(calls, i), calls[i]).executed
    ensures Kept(calls, n)[h] == Entry(calls[i].addr, calls[i].pkt, calls[i].answer)
  {
    if h == |Kept(calls, n - 1)| {
      i := n - 1;
    } else {
      i := StoredBy(calls, n - 1, h);
    }
  }

  /** And only such a resend is answered without being run. */
  lemma OnlyResends(calls: seq<Call>, j: nat) returns (i: nat)
    requires j < |calls| && calls[j].allowed && !Answer(Kept(calls, j), calls[j]).executed
    ensures i < j && NonIdempotent(calls[i].pkt) && Answer(Kept(calls, i), calls[i]).executed
    ensures calls[j].addr == calls[i].addr && calls[j].pkt == calls[i].pkt
    ensures |Kept(calls, j)| - |Kept(calls, i + 1)| < SLOTS
  {
    var kept := Kept(calls, j);
    i := StoredBy(calls, j, Find(kept, calls[j].addr, calls[j].pkt, |kept|));
  }

  // ----- the ring

  lemma SlotsDiffer(n: nat)
    ensures forall h | n - 64 < h < n && 0 <= h :: h % 64 != n % 64
    ensures (n + 1) % 64 == (n % 64 + 1) % 64 && (n < 64 ==> n % 64 == n)
  {
  }

  const BLANK := Entry("", [], None)

  class Ring {
    const ent: array<Entry>
    var next: nat
    ghost var stored: seq<Entry>

    /** Slot s holds the newest entry whose place is s, or nothing yet. */
    ghost predicate Valid()
      reads this, ent
    {
      && ent.Length == SLOTS && next == |stored| % 64
      && (forall h | Live(stored, h) :: ent[h % 64] == stored[h])
      && (forall s | |stored| <= s < SLOTS :: ent[s] == BLANK)
      && (forall h | 0 <= h < |stored| :: NonIdempotent(stored[h].call))
    }

    constructor ()
      ensures Valid() && stored == [] && fresh(ent)
    {
      ent := new Entry[SLOTS](_ => BLANK);
      next, stored := 0, [];
    }

    /** Looks at every slot, in order. */
    method Lookup(addr: string, pkt: seq<byte>) returns (reply: Option<seq<byte>>, ok: bool)
      requires Valid() && OneEach(stored)
      ensures ok == (NonIdempotent(pkt) && Find(stored, addr, pkt, |stored|) >= 0)
      ensures ok ==> reply == stored[Find(stored, addr, pkt, |stored|)].reply
    {
      if !NonIdempotent(pkt) {
        return None, false;
      }
      ghost var h := Find(stored, addr, pkt, |stored|);
      ghost var slot := if h >= 0 then h % 64 else 64;
      assert h >= 0 ==> slot < 64 && ent[slot] == stored[h];
      for s := 0 to SLOTS
        invariant s <= slot
      {
        if Matches(ent[s], addr, pkt) {
          ghost var own := SlotOwner(s);
          FindOwn(stored, own, ent[s]);
          return ent[s].reply, true;
        }
      }
      return None, false;
    }

    /** Which entry a slot holds. */
    lemma SlotOwner(s: nat) returns (h: nat)
      requires Valid() && s < SLOTS && ent[s].call != []
      ensures Live(stored, h) && h % 64 == s && ent[s] == stored[h]
    {
      h := if s < next then |stored| - next + s else |stored| - next - 64 + s;
    }

    method Put(addr: string, pkt: seq<byte>, reply: Option<seq<byte>>)
      requires Valid()
      modifies this, ent
      ensures Valid() && stored == if NonIdempotent(pkt) then old(stored) + [Entry(addr, pkt, reply)] else old(stored)
    {
      if NonIdempotent(pkt) {
        SlotsDiffer(|stored|);
        ent[next] := Entry(addr, pkt, reply);
        next := (next + 1) % SLOTS;
        stored := stored + [Entry(addr, pkt, reply)];
      }
    }
  
    /** One datagram. */
    method Handle(c: Call) returns (s: Served)
      requires Valid() && OneEach(stored)
      modifies this, ent
      ensures Valid() == true && s == Answer(old(stored), c) && stored == Store(old(stored), c)
    {
      if !c.allowed {
        return Served(false, None);
      }
      var reply, ok := Lookup(c.addr, c.pkt);
      if !ok {
        reply := c.answer;
        Put(c.addr, c.pkt, reply);
      }
      s := Served(!ok, reply);
    }
  }

  /** Calls are answered one at a time. */
  method ServeUDP(calls: seq<Call>) returns (out: seq<Served>)
    ensures |out| == |calls| &&
            forall i {:trigger out[i]} | 0 <= i < |calls| :: out[i] == Answer(Kept(calls, i), calls[i])
  {
    var ring := new Ring();
    out := [];
    for n := 0 to |calls|
      invariant ring.Valid() == true && fresh(ring) && fresh(ring.ent) && ring.stored == Kept(calls, n)
      invariant |out| == n && forall i {:trigger out[i]} | 0 <= i < n :: out[i] == Answer(Kept(calls, i), calls[i])
    {
      KeptOneEach(calls, n);
      var s := ring.Handle(calls[n]);
      out := out + [s];
    }
  }
}
