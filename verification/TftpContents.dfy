/** Whose bytes arrive: the file's own, exactly when every read filled its block. */
module TftpContents {
  import opened Bits
  import opened Tftp
  import opened TftpSafety

  // ----- nothing but the bytes depends on what the file holds

  predicate SamePacket(x: Packet, y: Packet) {
    x.Oack? == y.Oack? && (x.Data? ==> x.block == y.block && |x.payload| == |y.payload|)
  }

  predicate SameData(c: seq<Message<Packet>>, d: seq<Message<Packet>>) {
    |c| == |d| && forall i | 0 <= i < |c| :: c[i].index == d[i].index && SamePacket(c[i].content, d[i].content)
  }

  predicate SameBlocks(c: seq<Block>, d: seq<Block>) {
    |c| == |d| && forall i | 0 <= i < |c| :: c[i].brought == d[i].brought && |c[i].cargo| == |d[i].cargo|
  }

  predicate SameReceiver(r: Receiver, t: Receiver) {
    r.(got := []) == t.(got := []) && |r.got| == |t.got|
  }

  /** Two systems alike but for the bytes. */
  predicate Alike(a: System, b: System) {
    && a.s.(buf := []) == b.s.(buf := []) && SameReceiver(a.r, b.r)
    && a.acks == b.acks && a.sending == b.sending && a.accepted == b.accepted
    && SameData(a.data, b.data) && SameBlocks(a.blocks, b.blocks)
  }

  /** Two transfers alike but for the bytes of the file. */
  predicate SameSize(p: Transfer, q: Transfer) {
    q == p.(file := q.file) && |q.file| == |p.file|
  }

  lemma BeginAlike(p: Transfer, q: Transfer, s: Sender, t: Sender, io: Io)
    requires SameSize(p, q) && s.(buf := []) == t.(buf := [])
    ensures BeginBlock(p, s, io).sender.(buf := []) == BeginBlock(q, t, io).sender.(buf := [])
    ensures BeginBlock(p, s, io).transmits == BeginBlock(q, t, io).transmits
  {
  }

  lemma AckAlike(p: Transfer, q: Transfer, s: Sender, t: Sender, io: Io)
    requires SameSize(p, q) && s.(buf := []) == t.(buf := [])
    ensures OnAck(p, s, io).sender.(buf := []) == OnAck(q, t, io).sender.(buf := [])
    ensures OnAck(p, s, io).transmits == OnAck(q, t, io).transmits
  {
    if s.handshake {
      BeginAlike(p, q, s.(handshake := false), t.(handshake := false), io);
    } else {
      var acked, block, off := s.bytesAcked + Want(p, s.off), (s.block + 1) % WRAP, s.off + p.blockSize;
      BeginAlike(p, q, s.(bytesAcked := acked).(block := block, off := off),
          t.(bytesAcked := acked).(block := block, off := off), io);
    }
  }

  lemma StepAlike(p: Transfer, q: Transfer, s: Sender, t: Sender, signal: Signal, io: Io)
    requires SameSize(p, q) && s.(buf := []) == t.(buf := [])
    ensures Step(p, s, signal, io).sender.(buf := []) == Step(q, t, signal, io).sender.(buf := [])
    ensures Step(p, s, signal, io).transmits == Step(q, t, signal, io).transmits
  {
    AckAlike(p, q, s, t, io);
  }

  lemma MovesAlike(p: Transfer, q: Transfer, a: System, b: System, x: SenderStep, y: SenderStep)
    requires SameSize(p, q) && Alike(a, b) && x.sender.(buf := []) == y.sender.(buf := []) && x.transmits == y.transmits
    ensures Alike(SenderMoves(p, a, x), SenderMoves(q, b, y))
  {
    assert SamePacket(Outgoing(p, x.sender), Outgoing(q, y.sender));
  }

  lemma ReceiveAlike(r: Receiver, t: Receiver, x: Packet, y: Packet, blockSize: nat)
    requires SameReceiver(r, t) && SamePacket(x, y)
    ensures SameReceiver(Receive(r, x, blockSize).receiver, Receive(t, y, blockSize).receiver)
    ensures Receive(r, x, blockSize).acks == Receive(t, y, blockSize).acks
  {
    assert r.got == [] <==> t.got == [];
  }

  lemma ReceiverAlike(p: Transfer, q: Transfer, a: System, b: System)
    requires SameSize(p, q) && Alike(a, b) && a.data != []
    ensures Alike(ReceiverMoves(p, a), ReceiverMoves(q, b))
  {
    ReceiveAlike(a.r, b.r, a.data[0].content, b.data[0].content, p.blockSize);
    assert ReceiverMoves(p, a).acks == ReceiverMoves(q, b).acks;
  }

  lemma RemoveAlike(c: seq<Message<Packet>>, d: seq<Message<Packet>>, i: nat)
    requires SameData(c, d)
    ensures SameData(Remove(c, i), Remove(d, i))
  {
    var x, y := Remove(c, i), Remove(d, i);
    forall j | 0 <= j < |x| ensures x[j].index == y[j].index && SamePacket(x[j].content, y[j].content) {
      var k := if i < |c| && j >= i then j + 1 else j;
      assert x[j] == c[k] && y[j] == d[k];
    }
  }

  lemma DoubleAlike(c: seq<Message<Packet>>, d: seq<Message<Packet>>, i: nat)
    requires SameData(c, d)
    ensures SameData(Double(c, i), Double(d, i))
  {
    var x, y := Double(c, i), Double(d, i);
    forall j | 0 <= j < |x| ensures x[j].index == y[j].index && SamePacket(x[j].content, y[j].content) {
      var k := if i < |c| && j > i then j - 1 else j;
      assert x[j] == c[k] && y[j] == d[k];
    }
  }

  lemma ApplyAlike(p: Transfer, q: Transfer, a: System, b: System, e: Event)
    requires SameSize(p, q) && Alike(a, b)
    ensures Alike(Apply(p, a, e), Apply(q, b, e))
  {
    match e
    case Expires(io) =>
      StepAlike(p, q, a.s, b.s, Timeout, io);
      MovesAlike(p, q, a, b, Step(p, a.s, Timeout, io), Step(q, b.s, Timeout, io));
    case AckArrives(io) =>
      if a.acks != [] {
        var signal := Ack(a.acks[0].content);
        StepAlike(p, q, a.s, b.s, signal, io);
        MovesAlike(p, q, a.(acks := a.acks[1..]), b.(acks := b.acks[1..]), Step(p, a.s, signal, io),
            Step(q, b.s, signal, io));
      }
    case ClientSends(signal) =>
      StepAlike(p, q, a.s, b.s, signal, WORKS);
      MovesAlike(p, q, a, b, Step(p, a.s, signal, WORKS), Step(q, b.s, signal, WORKS));
    case DataArrives =>
      if a.data != [] {
        ReceiverAlike(p, q, a, b);
      }
    case DataLost(i) => RemoveAlike(a.data, b.data, i);
    case DataDoubled(i) => DoubleAlike(a.data, b.data, i);
    case _ =>
  }

  lemma {:induction false} RunAlike(p: Transfer, q: Transfer, io: Io, events: seq<Event>)
    requires SameSize(p, q)
    ensures Alike(Run(p, io, events), Run(q, io, events))
  {
    if events == [] {
      MovesAlike(p, q, Origin(p), Origin(q), Start(p, io), Start(q, io));
    } else {
      var last := |events| - 1;
      RunAlike(p, q, io, events[..last]);
      ApplyAlike(p, q, Run(p, io, events[..last]), Run(q, io, events[..last]), events[last]);
    }
  }

  // ----- a read that does not fill its block

  /** A file of zeros but for one byte. */
  function OneByte(n: nat, at: nat): (file: seq<byte>)
    ensures |file| == n
  {
    seq(n, i requires 0 <= i < n => if i == at then 1 else 0)
  }

  predicate AllZero(s: seq<byte>) {
    forall i | 0 <= i < |s| :: s[i] == 0
  }

  /** Before the block of that byte everything sent is zero. */
  lemma {:induction false} ZeroBefore(p: Transfer, blocks: seq<Block>, k: nat, j: nat, at: nat)
    requires TransferOK(p) && BlocksHold(p, blocks) && 1 <= k < j <= |blocks| && Offset(p, j) <= at
    requires p.file == OneByte(|p.file|, at)
    ensures AllZero(blocks[k - 1].cargo)
    decreases k
  {
    assert BlockHolds(p, blocks, k);
    OffsetRises(p, k, j);
    if k > 1 {
      ZeroBefore(p, blocks, k - 1, j, at);
    }
  }

  lemma {:induction false} OffsetRises(p: Transfer, j: nat, k: nat)
    requires 1 <= j < k
    ensures Offset(p, j) + p.blockSize <= Offset(p, k)
  {
    if j < k - 1 {
      OffsetRises(p, j, k - 1);
    }
  }

  lemma {:induction false} JoinedAt(p: Transfer, blocks: seq<Block>, n: int, k: nat, i: nat)
    requires TransferOK(p) && BlocksHold(p, blocks) && k < n <= |blocks| && i < |blocks[k].cargo|
    ensures Offset(p, k + 1) + i < |Joined(blocks, n)| && Joined(blocks, n)[Offset(p, k + 1) + i] == blocks[k].cargo[i]
    decreases n
  {
    JoinedLength(p, blocks, n - 1);
    BlocksMeet(p, blocks, n);
    if k < n - 1 {
      JoinedAt(p, blocks, n - 1, k, i);
    }
  }

  /**
   A block its read did not fill goes out with a byte that is not the file's, when the file is zero but for that byte.
   */
  lemma ShortBlock(p: Transfer, sys: System, k: nat)
    requires TransferOK(p) && Inv(p, sys) == true && k < sys.accepted && k < |sys.blocks|
    requires sys.blocks[k].brought < |sys.blocks[k].cargo|
    requires p.file == OneByte(|p.file|, Offset(p, k + 1) + sys.blocks[k].brought)
    ensures var at := Offset(p, k + 1) + sys.blocks[k].brought;
      at < |sys.r.got| && at < |p.file| && sys.r.got[at] != p.file[at]
  {
    var i := sys.blocks[k].brought;
    var at := Offset(p, k + 1) + i;
    assert BlockHolds(p, sys.blocks, k + 1);
    if k > 0 {
      ZeroBefore(p, sys.blocks, k, k + 1, at);
    }
    JoinedAt(p, sys.blocks, sys.accepted, k, i);
  }

  lemma ShortAlike(p: Transfer, q: Transfer, like: System, k: nat, brought: nat)
    requires TransferOK(p) && SameSize(p, q) && Inv(q, like) == true && k < like.accepted && k < |like.blocks|
    requires brought == like.blocks[k].brought < |like.blocks[k].cargo|
    requires q.file == OneByte(|p.file|, Offset(p, k + 1) + brought)
    ensures !(like.r.got <= q.file)
  {
    SameOffsets(p, q, k + 1);
    ShortBlock(q, like, k);
  }

  lemma ShortSomewhere(p: Transfer, sys: System) returns (k: nat)
    requires Inv(p, sys) && !AllFilled(sys)
    ensures k < sys.accepted && k < |sys.blocks| && sys.blocks[k].brought < |sys.blocks[k].cargo|
  {
    k :| 0 <= k < sys.accepted && k < |sys.blocks| && sys.blocks[k].brought != |sys.blocks[k].cargo|;
    assert BlockHolds(p, sys.blocks, k + 1);
  }

  lemma ShortFile(p: Transfer, sys: System) returns (file: seq<byte>)
    requires TransferOK(p) && Inv(p, sys) && !AllFilled(sys)
    ensures |file| == |p.file|
    ensures forall like | Inv(p.(file := file), like) && Alike(sys, like) :: !(like.r.got <= file)
  {
    var k := ShortSomewhere(p, sys);
    file := OneByte(|p.file|, Offset(p, k + 1) + sys.blocks[k].brought);
    var q := p.(file := file);
    forall like | Inv(q, like) && Alike(sys, like) ensures !(like.r.got <= file) {
      ShortAlike(p, q, like, k, sys.blocks[k].brought);
    }
  }

  /** So for any run in which a read did not fill its block there is a file of the same size that arrives wrong. */
  lemma ShortReadShows(p: Transfer, io: Io, events: seq<Event>) returns (file: seq<byte>)
    requires TransferOK(p) && !AllFilled(Run(p, io, events))
    ensures |file| == |p.file| && !(Run(p.(file := file), io, events).r.got <= file)
  {
    RunHolds(p, io, events);
    file := ShortFile(p, Run(p, io, events));
    RunAlike(p, p.(file := file), io, events);
    RunHolds(p.(file := file), io, events);
  }

  lemma {:induction false} SameOffsets(p: Transfer, q: Transfer, k: nat)
    requires SameSize(p, q)
    ensures Offset(p, k) == Offset(q, k)
  {
    if k > 1 {
      SameOffsets(p, q, k - 1);
    }
  }

  /** A run's reads say whether its bytes are a file's, whatever the file. */
  lemma FilledAlike(p: Transfer, q: Transfer, io: Io, events: seq<Event>)
    requires SameSize(p, q)
    ensures AllFilled(Run(p, io, events)) <==> AllFilled(Run(q, io, events))
  {
    RunAlike(p, q, io, events);
  }

  /**
   Whatever the file holds, the bytes received are a prefix of it, if and only if every read filled its block: the
   sender takes an end of file for success, and sends what the block before left in the buffer.
   */
  lemma ReceivedIsPrefix(p: Transfer, io: Io, events: seq<Event>)
    requires TransferOK(p)
    ensures AllFilled(Run(p, io, events)) <==>
              forall file | |file| == |p.file| :: Run(p.(file := file), io, events).r.got <= file
  {
    if AllFilled(Run(p, io, events)) {
      forall file: seq<byte> | |file| == |p.file| ensures Run(p.(file := file), io, events).r.got <= file {
        FilledAlike(p, p.(file := file), io, events);
        RunHolds(p.(file := file), io, events);
        PrefixKept(p.(file := file), Run(p.(file := file), io, events));
      }
    } else {
      var file := ShortReadShows(p, io, events);
    }
  }

  /**
   "ok" is reported only when the receiver has seen a short block and holds as many bytes as the file; whatever the file
   holds, they are the file's, if and only if every read filled its block. After an unacknowledged final block at most
   that block is missing.
   */
  lemma CompletionIsTrue(p: Transfer, io: Io, events: seq<Event>)
    requires TransferOK(p)
    ensures var sys := Run(p, io, events);
      && (sys.s.result.Okay? ==> sys.r.finished)
      && (sys.r.finished ==> |sys.r.got| == |p.file|)
      && (sys.s.result.UnackedFinal? ==> |p.file| - |sys.r.got| < p.blockSize)
    ensures Run(p, io, events).s.result.Okay? ==>
              (AllFilled(Run(p, io, events)) <==>
               forall file | |file| == |p.file| :: Run(p.(file := file), io, events).r.got == file)
  {
    RunHolds(p, io, events);
    CountsKept(p, Run(p, io, events));
    if Run(p, io, events).s.result.Okay? {
      if AllFilled(Run(p, io, events)) {
        forall file: seq<byte> | |file| == |p.file| ensures Run(p.(file := file), io, events).r.got == file {
          var q := p.(file := file);
          FilledAlike(p, q, io, events);
          RunAlike(p, q, io, events);
          RunHolds(q, io, events);
          PrefixKept(q, Run(q, io, events));
        }
      } else {
        var file := ShortReadShows(p, io, events);
        assert Run(p.(file := file), io, events).r.got != file;
      }
    }
  }
}
