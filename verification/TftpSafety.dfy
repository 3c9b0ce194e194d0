/** What every run of a TFTP transfer keeps, whatever the channels do and the reads bring. */
module TftpSafety {
  import opened Bits
  import opened Tftp

  /** Where block k starts; blocks are counted from 1. */
  function Offset(p: Transfer, k: nat): nat {
    if k <= 1 then 0 else Offset(p, k - 1) + p.blockSize
  }

  /** The bytes of the first n blocks. */
  function Held(p: Transfer, n: int): nat {
    if n <= 0 then 0 else Offset(p, n) + Want(p, Offset(p, n))
  }

  // ----- blocks

  /** A block is what its read brought, then what the block before it left in the buffer. */
  predicate BlockHolds(p: Transfer, blocks: seq<Block>, k: nat)
    requires 1 <= k <= |blocks|
  {
    var b, off := blocks[k - 1], Offset(p, k);
    && off <= |p.file| && |b.cargo| == Want(p, off) && b.brought <= |b.cargo|
    && (forall i | 0 <= i < |b.cargo| :: b.cargo[i] == if i < b.brought then p.file[off + i]
        else Left(blocks, k - 1, i))
  }

  /** Byte i of the buffer after block k; cleared before the first. */
  function Left(blocks: seq<Block>, k: nat, i: nat): byte {
    if 1 <= k <= |blocks| && i < |blocks[k - 1].cargo| then blocks[k - 1].cargo[i] else 0
  }

  predicate BlocksHold(p: Transfer, blocks: seq<Block>) {
    forall k {:trigger BlockHolds(p, blocks, k)} | 1 <= k <= |blocks| :: BlockHolds(p, blocks, k)
  }

  lemma BlocksGrow(p: Transfer, blocks: seq<Block>, b: Block)
    requires BlocksHold(p, blocks) && BlockHolds(p, blocks + [b], |blocks| + 1)
    ensures BlocksHold(p, blocks + [b])
  {
    forall k | 1 <= k <= |blocks| + 1 ensures BlockHolds(p, blocks + [b], k) {
      if k <= |blocks| {
        assert BlockHolds(p, blocks, k);
      }
    }
  }

  /** The bytes of the first n blocks as they went out. */
  function Joined(blocks: seq<Block>, n: int): (s: seq<byte>)
    decreases if n <= 0 then 0 else n
  {
    if n <= 0 || n > |blocks| then [] else Joined(blocks, n - 1) + blocks[n - 1].cargo
  }

  lemma {:induction false} JoinedStable(blocks: seq<Block>, b: Block, n: int)
    requires n <= |blocks|
    ensures Joined(blocks + [b], n) == Joined(blocks, n)
    decreases if n <= 0 then 0 else n
  {
    if n > 0 {
      JoinedStable(blocks, b, n - 1);
    }
  }

  lemma {:induction false} JoinedLength(p: Transfer, blocks: seq<Block>, n: int)
    requires TransferOK(p) && BlocksHold(p, blocks) && n <= |blocks|
    ensures |Joined(blocks, n)| == Held(p, n)
    decreases if n <= 0 then 0 else n
  {
    if n > 0 {
      JoinedLength(p, blocks, n - 1);
      assert BlockHolds(p, blocks, n);
    }
  }

  // ----- what is under way

  function PacketOf(blocks: seq<Block>, k: nat): Packet
    requires k <= |blocks|
  {
    if k == 0 then Oack else Data(k % WRAP, blocks[k - 1].cargo)
  }

  predicate IsPacket(p: Transfer, blocks: seq<Block>, m: Message<Packet>) {
    (m.index == 0 ==> p.options) && m.index <= |blocks| && m.content == PacketOf(blocks, m.index)
  }

  /** Packets of blocks low to high, in order. */
  predicate DataHolds(p: Transfer, blocks: seq<Block>, c: seq<Message<Packet>>, low: int, high: nat)
    decreases c
  {
    c == [] ||
    (low <= c[0].index <= high && IsPacket(p, blocks, c[0]) && DataHolds(p, blocks, c[1..], c[0].index, high))
  }

  /** Acknowledgements of blocks low to high, in order. */
  predicate AcksHold(c: seq<Message<nat>>, low: int, high: int)
    decreases c
  {
    c == [] || (low <= c[0].index <= high && c[0].content == c[0].index % WRAP && AcksHold(c[1..], c[0].index, high))
  }

  // ----- the two ends

  predicate SenderHolds(p: Transfer, s: Sender, k: nat) {
    && Offset(p, k) <= |p.file|
    && (s.handshake <==> k == 0)
    && (k == 0 ==> p.options)
    && s.block == (if k == 0 then 1 else k % WRAP)
    && s.off == Offset(p, k)
    && (s.result.Running? ==> s.attempt <= Budget(p, s))
    && s.bytesAcked == (if s.result.Okay? then |p.file| else Offset(p, k))
    && s.bytesSent == (if k == 0 || s.result.ReadError? then Offset(p, k) else Held(p, k))
    && (s.result.Okay? || s.result.UnackedFinal? ==> k > 0 && IsFinal(p, s.off))
    && (s.result.ReadError? ==> k > 0)
  }

  /** The buffer holds the block being sent; before the first block it is cleared. */
  predicate BufferHolds(p: Transfer, s: Sender, k: nat, blocks: seq<Block>) {
    && |s.buf| == p.blockSize
    && |blocks| == (if s.result.ReadError? && k > 0 then k - 1 else k)
    && (k == 0 ==> forall i | 0 <= i < |s.buf| :: s.buf[i] == 0)
    && (k > 0 && !s.result.ReadError? ==> Cargo(p, s) == blocks[k - 1].cargo)
  }

  predicate ReceiverHolds(p: Transfer, r: Receiver, n: int, blocks: seq<Block>) {
    && -1 <= n <= |blocks|
    && (r.settled <==> n >= 0)
    && r.next == (if n <= 0 then 1 else (n + 1) % WRAP)
    && r.got == Joined(blocks, n)
    && (r.finished <==> n >= 1 && IsFinal(p, Offset(p, n)))
  }

  /** The receiver is at most one block behind the sender, and what is under way is the last two blocks'. */
  predicate Inv(p: Transfer, sys: System) {
    && SenderHolds(p, sys.s, sys.sending)
    && BufferHolds(p, sys.s, sys.sending, sys.blocks)
    && BlocksHold(p, sys.blocks)
    && ReceiverHolds(p, sys.r, sys.accepted, sys.blocks)
    && sys.sending - 1 <= sys.accepted
    && (sys.s.result.Okay? ==> sys.accepted == sys.sending)
    && DataHolds(p, sys.blocks, sys.data, sys.accepted, |sys.blocks|)
    && AcksHold(sys.acks, sys.sending - 1, sys.accepted)
  }

  lemma RemoveSplits<T>(c: seq<T>, i: nat)
    requires i < |c|
    ensures i == 0 ==> Remove(c, i) == c[1..]
    ensures i > 0 ==> Remove(c, i) != [] && Remove(c, i)[0] == c[0] && Remove(c, i)[1..] == Remove(c[1..], i - 1)
  {
  }

  lemma DoubleSplits<T>(c: seq<T>, i: nat)
    requires i < |c|
    ensures Double(c, i) != [] && Double(c, i)[0] == c[0]
    ensures Double(c, i)[1..] == if i == 0 then c else Double(c[1..], i - 1)
  {
    var d := Double(c, i);
    if i == 0 {
      assert d == [c[0]] + c;
    } else {
      assert forall j | 0 <= j < |d| :: d[j] == if j <= i then c[j] else c[j - 1];
    }
  }

  lemma {:induction false} LooserData(p: Transfer, blocks: seq<Block>, c: seq<Message<Packet>>, low: int, high: nat,
      low': int, high': nat)
    requires DataHolds(p, blocks, c, low, high) && low' <= low && high <= high'
    ensures DataHolds(p, blocks, c, low', high')
    decreases c
  {
    if c != [] {
      LooserData(p, blocks, c[1..], c[0].index, high, c[0].index, high');
    }
  }

  lemma {:induction false} RemoveKeepsData(p: Transfer, blocks: seq<Block>, c: seq<Message<Packet>>, i: nat, low: int,
      high: nat)
    requires DataHolds(p, blocks, c, low, high)
    ensures DataHolds(p, blocks, Remove(c, i), low, high)
    decreases c
  {
    if i < |c| {
      RemoveSplits(c, i);
      if i == 0 {
        LooserData(p, blocks, c[1..], c[0].index, high, low, high);
      } else {
        RemoveKeepsData(p, blocks, c[1..], i - 1, c[0].index, high);
      }
    }
  }

  lemma {:induction false} DoubleKeepsData(p: Transfer, blocks: seq<Block>, c: seq<Message<Packet>>, i: nat, low: int,
      high: nat)
    requires DataHolds(p, blocks, c, low, high)
    ensures DataHolds(p, blocks, Double(c, i), low, high)
    decreases c
  {
    if i < |c| {
      DoubleSplits(c, i);
      if i > 0 {
        DoubleKeepsData(p, blocks, c[1..], i - 1, c[0].index, high);
      }
    }
  }

  lemma {:induction false} SendKeepsData(p: Transfer, blocks: seq<Block>, c: seq<Message<Packet>>, low: int, high: nat,
      m: Message<Packet>)
    requires DataHolds(p, blocks, c, low, high) && low <= m.index && high <= m.index && IsPacket(p, blocks, m)
    ensures DataHolds(p, blocks, c + [m], low, m.index)
    decreases c
  {
    if c == [] {
      assert c + [m] == [m] && [m][1..] == [];
    } else {
      assert (c + [m])[1..] == c[1..] + [m];
      SendKeepsData(p, blocks, c[1..], c[0].index, high, m);
    }
  }

  lemma {:induction false} DataStable(p: Transfer, blocks: seq<Block>, b: Block, c: seq<Message<Packet>>, low: int,
      high: nat)
    requires DataHolds(p, blocks, c, low, high)
    ensures DataHolds(p, blocks + [b], c, low, high)
    decreases c
  {
    if c != [] {
      DataStable(p, blocks, b, c[1..], c[0].index, high);
    }
  }

  lemma {:induction false} LooserAcks(c: seq<Message<nat>>, low: int, high: int, low': int, high': int)
    requires AcksHold(c, low, high) && low' <= low && high <= high'
    ensures AcksHold(c, low', high')
    decreases c
  {
    if c != [] {
      LooserAcks(c[1..], c[0].index, high, c[0].index, high');
    }
  }

  lemma {:induction false} RemoveKeepsAcks(c: seq<Message<nat>>, i: nat, low: int, high: int)
    requires AcksHold(c, low, high)
    ensures AcksHold(Remove(c, i), low, high)
    decreases c
  {
    if i < |c| {
      RemoveSplits(c, i);
      if i == 0 {
        LooserAcks(c[1..], c[0].index, high, low, high);
      } else {
        RemoveKeepsAcks(c[1..], i - 1, c[0].index, high);
      }
    }
  }

  lemma {:induction false} DoubleKeepsAcks(c: seq<Message<nat>>, i: nat, low: int, high: int)
    requires AcksHold(c, low, high)
    ensures AcksHold(Double(c, i), low, high)
    decreases c
  {
    if i < |c| {
      DoubleSplits(c, i);
      if i > 0 {
        DoubleKeepsAcks(c[1..], i - 1, c[0].index, high);
      }
    }
  }

  lemma {:induction false} AckKeepsAcks(c: seq<Message<nat>>, low: int, high: int, m: Message<nat>)
    requires AcksHold(c, low, high) && low <= m.index && high <= m.index && m.content == m.index % WRAP
    ensures AcksHold(c + [m], low, m.index)
    decreases c
  {
    if c == [] {
      assert c + [m] == [m] && [m][1..] == [];
    } else {
      assert (c + [m])[1..] == c[1..] + [m];
      AckKeepsAcks(c[1..], c[0].index, high, m);
    }
  }

  /** Two neighbouring indices never share a block number. */
  lemma NeighboursDiffer(k: nat)
    ensures k % WRAP != (k + 1) % WRAP
    ensures (k % WRAP + 1) % WRAP == (k + 1) % WRAP
  {
  }

  // ----- beginning a block

  /** The buffer is what the blocks so far have left in it. */
  predicate BufferLeft(p: Transfer, s: Sender, blocks: seq<Block>) {
    |s.buf| == p.blockSize && forall i | 0 <= i < |s.buf| :: s.buf[i] == Left(blocks, |blocks|, i)
  }

  lemma BufferNow(p: Transfer, s: Sender, k: nat, blocks: seq<Block>)
    requires BufferHolds(p, s, k, blocks) && s.result.Running? && (k > 0 ==> !IsFinal(p, s.off))
    ensures BufferLeft(p, s, blocks)
  {
    if k > 0 {
      forall i | 0 <= i < |s.buf| ensures s.buf[i] == Left(blocks, k, i) {
        assert Cargo(p, s)[i] == s.buf[i];
      }
    }
  }

  /** A block that is read, in whole or in part, goes out after what was left in the buffer. */
  lemma BlockBegun(p: Transfer, s: Sender, k: nat, blocks: seq<Block>, io: Io)
    requires k > 0 && |blocks| == k - 1 && BlocksHold(p, blocks) && BufferLeft(p, s, blocks)
    requires s.off == Offset(p, k) <= |p.file| && s.result.Running?
    ensures var t := BeginBlock(p, s, io).sender;
      if t.result.ReadError? then BufferHolds(p, t, k, blocks)
      else var more := blocks + [Block(Cargo(p, t), t.brought)]; BlocksHold(p, more) && BufferHolds(p, t, k, more)
  {
    var t := BeginBlock(p, s, io).sender;
    if !t.result.ReadError? {
      var b := Block(Cargo(p, t), t.brought);
      forall i | 0 <= i < |b.cargo|
        ensures b.cargo[i] == if i < b.brought then p.file[s.off + i] else Left(blocks + [b], k - 1, i)
      {
        assert t.buf[i] == if i < t.brought then p.file[s.off + i] else s.buf[i];
      }
      BlocksGrow(p, blocks, b);
    }
  }

  lemma InitialHolds(p: Transfer, io: Io)
    requires TransferOK(p)
    ensures Inv(p, Initial(p, io))
  {
    if !p.options {
      BlockBegun(p, Fresh(p).(handshake := false), 1, [], io);
      assert Fresh(p).(handshake := false) == Fresh(p);
      var sys := Initial(p, io);
      if sys.s.result.Running? {
        SendKeepsData(p, sys.blocks, [], 0, 1, Message(PacketOf(sys.blocks, 1), 1));
        assert [] + [Message(PacketOf(sys.blocks, 1), 1)] == sys.data;
      }
    } else {
      var sys := Initial(p, io);
      SendKeepsData(p, [], [], -1, 0, Message(Oack, 0));
      assert [] + [Message(Oack, 0)] == [Message(Oack, 0)];
    }
  }

  // ----- the sender's steps

  /** A passed deadline leaves the sender at its block. */
  lemma TimeoutKeepsSender(p: Transfer, s: Sender, k: nat, blocks: seq<Block>, io: Io)
    requires SenderHolds(p, s, k) && BufferHolds(p, s, k, blocks) && s.result.Running?
    ensures var t := OnTimeout(p, s, io).sender;
      && SenderHolds(p, t, k) && BufferHolds(p, t, k, blocks)
      && t.off == s.off && t.handshake == s.handshake && !t.result.Okay? && !t.result.ReadError?
      && (OnTimeout(p, s, io).transmits ==> Outgoing(p, t) == PacketOf(blocks, k))
  {
    assert Cargo(p, OnTimeout(p, s, io).sender) == Cargo(p, s);
  }

  /** A sender that does not move and sends nothing leaves the system as it is. */
  lemma StaysPut(p: Transfer, sys: System)
    ensures SenderMoves(p, sys, SenderStep(sys.s, false)) == sys
  {
  }

  lemma TimeoutHolds(p: Transfer, sys: System, io: Io)
    requires TransferOK(p) && Inv(p, sys)
    ensures Inv(p, Apply(p, sys, Expires(io)))
  {
    if sys.s.result.Running? {
      var k := sys.sending;
      TimeoutKeepsSender(p, sys.s, k, sys.blocks, io);
      SendKeepsData(p, sys.blocks, sys.data, sys.accepted, k, Message(PacketOf(sys.blocks, k), k));
    } else {
      StaysPut(p, sys);
    }
  }

  /** The awaited acknowledgement ends the transfer at the final block, and else moves on to the next. */
  lemma AckMovesSender(p: Transfer, s: Sender, k: nat, io: Io)
    requires TransferOK(p) && SenderHolds(p, s, k) && s.result.Running?
    ensures var step := OnAck(p, s, io);
      if k > 0 && IsFinal(p, s.off) then
        SenderHolds(p, step.sender, k) && step.sender == s.(bytesAcked := step.sender.bytesAcked, result := Okay) &&
            !step.transmits
      else
        && SenderHolds(p, step.sender, k + 1) && !step.sender.result.Okay?
        && step.transmits == step.sender.result.Running?
  {
    NeighboursDiffer(k);
  }

  /** Where the buffer and the blocks stand once the next block is begun. */
  lemma AckBegins(p: Transfer, s: Sender, k: nat, blocks: seq<Block>, io: Io)
    requires TransferOK(p) && SenderHolds(p, s, k) && s.result.Running?
    requires BufferHolds(p, s, k, blocks) && BlocksHold(p, blocks) && !(k > 0 && IsFinal(p, s.off))
    ensures var t := OnAck(p, s, io).sender;
      if t.result.ReadError? then BufferHolds(p, t, k + 1, blocks)
      else var more := blocks + [Block(Cargo(p, t), t.brought)]; BlocksHold(p, more) && BufferHolds(p, t, k + 1, more)
  {
    BufferNow(p, s, k, blocks);
    OnwardIs(p, s, k, io);
    BlockBegun(p, Onward(p, s), k + 1, blocks, io);
  }

  /** The sender at the block after the one acknowledged, before it is read. */
  function Onward(p: Transfer, s: Sender): Sender {
    if s.handshake then s.(handshake := false)
    else
      s.(bytesAcked := s.bytesAcked + Want(p, s.off)).(block := (s.block + 1) % WRAP, off := s.off + p.blockSize)
  }

  lemma OnwardIs(p: Transfer, s: Sender, k: nat, io: Io)
    requires TransferOK(p) && SenderHolds(p, s, k) && s.result.Running? && !(k > 0 && IsFinal(p, s.off))
    ensures OnAck(p, s, io) == BeginBlock(p, Onward(p, s), io)
    ensures Onward(p, s).off == Offset(p, k + 1) <= |p.file| && Onward(p, s).result.Running?
    ensures Onward(p, s).buf == s.buf
  {
  }

  /** An acknowledgement that is not awaited only leaves the channel. */
  lemma AckPopped(p: Transfer, sys: System)
    requires Inv(p, sys) && sys.acks != []
    ensures Inv(p, sys.(acks := sys.acks[1..]))
  {
    LooserAcks(sys.acks[1..], sys.acks[0].index, sys.accepted, sys.sending - 1, sys.accepted);
  }

  /** The number awaited is the present block's own: no earlier acknowledgement can still be under way. */
  lemma AwaitedIsCurrent(p: Transfer, sys: System)
    requires Inv(p, sys) && sys.acks != [] && sys.acks[0].content == Awaited(sys.s)
    ensures sys.acks[0].index == sys.sending == sys.accepted
  {
    if sys.sending > 0 {
      NeighboursDiffer(sys.sending - 1);
    }
  }

  /** The final block's acknowledgement ends the transfer. */
  lemma LastAckHolds(p: Transfer, sys: System, s: Sender)
    requires Inv(p, sys) && sys.s.result.Running? && sys.accepted == sys.sending > 0
    requires SenderHolds(p, s, sys.sending) && s == sys.s.(bytesAcked := s.bytesAcked, result := Okay)
    ensures Inv(p, sys.(s := s))
  {
    assert Cargo(p, s) == Cargo(p, sys.s);
  }

  /** What the receiver has and what is under way do not change when another block is begun. */
  lemma OthersStay(p: Transfer, sys: System, b: Block)
    requires Inv(p, sys)
    ensures ReceiverHolds(p, sys.r, sys.accepted, sys.blocks + [b])
    ensures DataHolds(p, sys.blocks + [b], sys.data, sys.accepted, |sys.blocks| + 1)
  {
    JoinedStable(sys.blocks, b, sys.accepted);
    DataStable(p, sys.blocks, b, sys.data, sys.accepted, |sys.blocks|);
    LooserData(p, sys.blocks + [b], sys.data, sys.accepted, |sys.blocks|, sys.accepted, |sys.blocks| + 1);
  }

  /** The sender moves on to the block after the one acknowledged, and fails to read it. */
  lemma UnreadHolds(p: Transfer, sys: System, s: Sender)
    requires Inv(p, sys) && sys.s.result.Running? && sys.accepted == sys.sending
    requires AcksHold(sys.acks, sys.sending, sys.accepted)
    requires SenderHolds(p, s, sys.sending + 1) && s.result.ReadError? && BufferHolds(p, s, sys.sending + 1, sys.blocks)
    ensures Inv(p, sys.(s := s, sending := sys.sending + 1))
  {
  }

  /** Or it reads it, in whole or in part, but fails to send it. */
  lemma UnsentHolds(p: Transfer, sys: System, s: Sender, b: Block)
    requires Inv(p, sys) && sys.s.result.Running? && sys.accepted == sys.sending
    requires AcksHold(sys.acks, sys.sending, sys.accepted)
    requires SenderHolds(p, s, sys.sending + 1) && !s.result.Okay? && !s.result.ReadError?
    requires BlocksHold(p, sys.blocks + [b]) && BufferHolds(p, s, sys.sending + 1, sys.blocks + [b])
    ensures Inv(p, sys.(s := s, sending := sys.sending + 1, blocks := sys.blocks + [b]))
  {
    OthersStay(p, sys, b);
  }

  /** Or it sends it. */
  lemma NextBlockHolds(p: Transfer, sys: System, s: Sender, b: Block)
    requires Inv(p, sys) && sys.s.result.Running? && sys.accepted == sys.sending
    requires AcksHold(sys.acks, sys.sending, sys.accepted)
    requires SenderHolds(p, s, sys.sending + 1) && !s.result.Okay? && !s.result.ReadError?
    requires BlocksHold(p, sys.blocks + [b]) && BufferHolds(p, s, sys.sending + 1, sys.blocks + [b])
    ensures var k := sys.sending + 1;
      var after := sys.(s := s, sending := k, blocks := sys.blocks + [b]);
      Inv(p, after.(data := sys.data + [Message(PacketOf(sys.blocks + [b], k), k)]))
  {
    var k := sys.sending + 1;
    UnsentHolds(p, sys, s, b);
    var after := sys.(s := s, sending := k, blocks := sys.blocks + [b]);
    SendKeepsData(p, after.blocks, sys.data, sys.accepted, k, Message(PacketOf(after.blocks, k), k));
    DataChanges(p, after, sys.data + [Message(PacketOf(after.blocks, k), k)]);
  }

  lemma SentAside(p: Transfer, sys: System, sent: seq<Packet>)
    requires Inv(p, sys)
    ensures Inv(p, sys.(sent := sent))
  {
  }

  lemma AckAdvances(p: Transfer, sys: System, step: SenderStep)
    requires Inv(p, sys) && sys.s.result.Running? && sys.accepted == sys.sending
    requires AcksHold(sys.acks, sys.sending, sys.accepted)
    requires SenderHolds(p, step.sender, sys.sending + 1) && !step.sender.result.Okay?
    requires step.transmits == step.sender.result.Running? && Place(sys, step.sender) == sys.sending + 1
    requires var t := step.sender;
      if t.result.ReadError? then BufferHolds(p, t, sys.sending + 1, sys.blocks)
      else
        var more := sys.blocks + [Block(Cargo(p, t), t.brought)];
        BlocksHold(p, more) && BufferHolds(p, t, sys.sending + 1, more)
    ensures Inv(p, SenderMoves(p, sys, step))
  {
    var t, k := step.sender, sys.sending + 1;
    var after := SenderMoves(p, sys, step);
    if t.result.ReadError? {
      UnreadHolds(p, sys, t);
    } else {
      var b := Block(Cargo(p, t), t.brought);
      UnsentHolds(p, sys, t, b);
      NextBlockHolds(p, sys, t, b);
      assert Outgoing(p, t) == PacketOf(sys.blocks + [b], k);
      var quiet := if step.transmits then sys.(data := sys.data + [Message(Outgoing(p, t), k)]) else sys;
      SentAside(p, quiet.(s := t, sending := k, blocks := sys.blocks + [b]), after.sent);
    }
  }

  lemma AckTaken(p: Transfer, sys: System, io: Io)
    requires TransferOK(p) && Inv(p, sys) && sys.s.result.Running? && sys.accepted == sys.sending
    requires AcksHold(sys.acks, sys.sending, sys.accepted)
    ensures Inv(p, SenderMoves(p, sys, OnAck(p, sys.s, io)))
  {
    var step := OnAck(p, sys.s, io);
    AckMovesSender(p, sys.s, sys.sending, io);
    if sys.sending > 0 && IsFinal(p, sys.s.off) {
      LastAckHolds(p, sys, step.sender);
    } else {
      AckBegins(p, sys.s, sys.sending, sys.blocks, io);
      AckAdvances(p, sys, step);
    }
  }

  lemma AckHolds(p: Transfer, sys: System, io: Io)
    requires TransferOK(p) && Inv(p, sys) && sys.acks != []
    ensures Inv(p, Apply(p, sys, AckArrives(io)))
  {
    var popped := sys.(acks := sys.acks[1..]);
    AckPopped(p, sys);
    if sys.s.result.Running? && sys.acks[0].content == Awaited(sys.s) {
      AwaitedIsCurrent(p, sys);
      AckTaken(p, popped, io);
    } else {
      StaysPut(p, popped);
    }
  }

  // ----- the receiver's steps

  /** A receiver that is a block behind expects that block. */
  lemma BlockExpected(p: Transfer, r: Receiver, k: nat, blocks: seq<Block>)
    requires TransferOK(p) && ReceiverHolds(p, r, k - 1, blocks) && 0 < k <= |blocks| && BlocksHold(p, blocks)
    ensures r.settled && r.next == k % WRAP && !r.finished
  {
    assert BlockHolds(p, blocks, k);
    assert k > 1 ==> Offset(p, k) == Offset(p, k - 1) + p.blockSize;
  }

  /** The receiver takes a block it has not had. */
  lemma BlockAccepted(p: Transfer, r: Receiver, k: nat, blocks: seq<Block>)
    requires TransferOK(p) && 0 < k <= |blocks| && BlocksHold(p, blocks)
    requires r.settled && r.next == k % WRAP && !r.finished && r.got == Joined(blocks, k - 1)
    ensures var x := Receive(r, PacketOf(blocks, k), p.blockSize);
      x.acks == [k % WRAP] && ReceiverHolds(p, x.receiver, k, blocks) && x.receiver.next != r.next
  {
    NeighboursDiffer(k);
    assert BlockHolds(p, blocks, k);
  }

  /** It acknowledges its last block again. */
  lemma BlockRepeated(p: Transfer, r: Receiver, k: nat, blocks: seq<Block>)
    requires TransferOK(p) && ReceiverHolds(p, r, k, blocks) && k > 0
    ensures Receive(r, PacketOf(blocks, k), p.blockSize) == Received(r, [k % WRAP])
  {
    NeighboursDiffer(k);
  }

  lemma BlockMovesReceiver(p: Transfer, r: Receiver, n: int, k: nat, blocks: seq<Block>)
    requires TransferOK(p) && ReceiverHolds(p, r, n, blocks) && n <= k <= n + 1 && k <= |blocks| &&
             BlocksHold(p, blocks)
    requires k == 0 ==> p.options
    ensures var x := Receive(r, PacketOf(blocks, k), p.blockSize);
      && x.acks == [k % WRAP]
      && ReceiverHolds(p, x.receiver, k, blocks)
      && (x.receiver.next != r.next || x.receiver.settled != r.settled <==> n < k)
  {
    if k > 0 {
      if n == k {
        BlockRepeated(p, r, k, blocks);
      } else {
        BlockExpected(p, r, k, blocks);
        BlockAccepted(p, r, k, blocks);
      }
    }
  }

  /** What the arrival of the first packet under way comes to. */
  lemma Delivery(p: Transfer, sys: System)
    requires TransferOK(p) && Inv(p, sys) && sys.data != []
    ensures var k, x := sys.data[0].index, Receive(sys.r, sys.data[0].content, p.blockSize).receiver;
      && ReceiverHolds(p, x, k, sys.blocks)
      && ReceiverMoves(p, sys)
           == sys.(r := x, data := sys.data[1..], accepted := k, acks := sys.acks + [Message(k % WRAP, k)])
  {
    var k := sys.data[0].index;
    BlockMovesReceiver(p, sys.r, sys.accepted, k, sys.blocks);
    OneAck(Receive(sys.r, sys.data[0].content, p.blockSize).acks, k);
  }

  lemma OneAck(acks: seq<nat>, k: nat)
    requires acks == [k % WRAP]
    ensures seq(|acks|, i requires 0 <= i < |acks| => Message(acks[i], k)) == [Message(k % WRAP, k)]
  {
  }

  lemma DataArrivesHolds(p: Transfer, sys: System)
    requires TransferOK(p) && Inv(p, sys) && sys.data != []
    ensures Inv(p, Apply(p, sys, DataArrives))
  {
    var k := sys.data[0].index;
    Delivery(p, sys);
    AckKeepsAcks(sys.acks, sys.sending - 1, sys.accepted, Message(k % WRAP, k));
  }

  lemma DataChanges(p: Transfer, sys: System, data: seq<Message<Packet>>)
    requires Inv(p, sys) && DataHolds(p, sys.blocks, data, sys.accepted, |sys.blocks|)
    ensures Inv(p, sys.(data := data))
  {
  }

  lemma AcksChange(p: Transfer, sys: System, acks: seq<Message<nat>>)
    requires Inv(p, sys) && AcksHold(acks, sys.sending - 1, sys.accepted)
    ensures Inv(p, sys.(acks := acks))
  {
  }

  /** Losing and doubling messages. */
  lemma ChannelHolds(p: Transfer, sys: System, e: Event)
    requires Inv(p, sys) && (e.DataLost? || e.DataDoubled? || e.AckLost? || e.AckDoubled?)
    ensures Inv(p, Apply(p, sys, e))
  {
    var low, high := sys.accepted, |sys.blocks|;
    match e
    case DataLost(i) => RemoveKeepsData(p, sys.blocks, sys.data, i, low, high);
        DataChanges(p, sys, Remove(sys.data, i));
    case DataDoubled(i) => DoubleKeepsData(p, sys.blocks, sys.data, i, low, high);
        DataChanges(p, sys, Double(sys.data, i));
    case AckLost(i) => RemoveKeepsAcks(sys.acks, i, sys.sending - 1, low); AcksChange(p, sys, Remove(sys.acks, i));
    case AckDoubled(i) => DoubleKeepsAcks(sys.acks, i, sys.sending - 1, low); AcksChange(p, sys, Double(sys.acks, i));
    case _ =>
  }

  /** A stray packet is ignored; an error packet ends the transfer. */
  lemma ClientHolds(p: Transfer, sys: System, signal: Signal)
    requires Inv(p, sys)
    ensures Inv(p, Apply(p, sys, ClientSends(signal)))
  {
    StaysPut(p, sys);
    assert Cargo(p, sys.s.(result := Aborted)) == Cargo(p, sys.s);
  }

  lemma ApplyHolds(p: Transfer, sys: System, e: Event)
    requires TransferOK(p) && Inv(p, sys)
    ensures Inv(p, Apply(p, sys, e))
  {
    match e
    case Expires(io) => TimeoutHolds(p, sys, io);
    case AckArrives(io) =>
      if sys.acks != [] {
        AckHolds(p, sys, io);
      }
    case ClientSends(signal) => ClientHolds(p, sys, signal);
    case DataArrives =>
      if sys.data != [] {
        DataArrivesHolds(p, sys);
      }
    case _ => ChannelHolds(p, sys, e);
  }

  lemma {:induction false} RunHolds(p: Transfer, io: Io, events: seq<Event>)
    requires TransferOK(p)
    ensures Inv(p, Run(p, io, events))
  {
    if events == [] {
      InitialHolds(p, io);
    } else {
      var last := |events| - 1;
      RunHolds(p, io, events[..last]);
      ApplyHolds(p, Run(p, io, events[..last]), events[last]);
    }
  }

  // ----- what a run means for the two ends

  /** Every read that did not fail filled its block, as far as the receiver has come. */
  predicate AllFilled(sys: System) {
    forall k | 0 <= k < sys.accepted && k < |sys.blocks| :: sys.blocks[k].brought == |sys.blocks[k].cargo|
  }

  lemma {:induction false} FilledIsFile(p: Transfer, blocks: seq<Block>, n: int)
    requires TransferOK(p) && BlocksHold(p, blocks) && n <= |blocks|
    requires forall k | 0 <= k < n :: blocks[k].brought == |blocks[k].cargo|
    ensures Held(p, n) <= |p.file| && Joined(blocks, n) == p.file[..Held(p, n)]
    decreases if n <= 0 then 0 else n
  {
    if n > 0 {
      FilledIsFile(p, blocks, n - 1);
      assert BlockHolds(p, blocks, n) && blocks[n - 1].brought == |blocks[n - 1].cargo|;
      BlocksMeet(p, blocks, n);
      Extends(p.file, Offset(p, n), blocks[n - 1].cargo);
    }
  }

  /** A block starts where the one before it ends. */
  lemma BlocksMeet(p: Transfer, blocks: seq<Block>, n: int)
    requires TransferOK(p) && BlocksHold(p, blocks) && 0 < n <= |blocks|
    ensures Held(p, n - 1) == Offset(p, n)
  {
    assert BlockHolds(p, blocks, n);
  }

  lemma Extends(file: seq<byte>, off: nat, more: seq<byte>)
    requires off + |more| <= |file| && forall i | 0 <= i < |more| :: more[i] == file[off + i]
    ensures file[..off] + more == file[..off + |more|]
  {
  }

  /** How much has been received lies between what is acknowledged and what was sent, whatever the bytes are. */
  lemma CountsKept(p: Transfer, sys: System)
    requires TransferOK(p) && Inv(p, sys)
    ensures sys.s.bytesAcked <= |sys.r.got| <= sys.s.bytesSent <= |p.file|
    ensures sys.s.result.Okay? ==> sys.r.finished
    ensures sys.r.finished ==> |sys.r.got| == |p.file|
    ensures sys.s.result.UnackedFinal? ==> |p.file| - |sys.r.got| < p.blockSize
  {
    var n, k := sys.accepted, sys.sending;
    JoinedLength(p, sys.blocks, n);
    assert n >= 1 ==> BlockHolds(p, sys.blocks, n);
    assert n >= 2 ==> Offset(p, n) == Offset(p, n - 1) + p.blockSize;
    assert k >= 2 ==> Offset(p, k) == Offset(p, k - 1) + p.blockSize;
  }

  lemma PrefixKept(p: Transfer, sys: System)
    requires TransferOK(p) && Inv(p, sys) && AllFilled(sys)
    ensures sys.r.got <= p.file && (sys.r.finished ==> sys.r.got == p.file)
  {
    FilledIsFile(p, sys.blocks, sys.accepted);
    CountsKept(p, sys);
  }

  /**
   The bytes received are the blocks as they went out: each is what its read brought of the file, then what the block
   before left in the buffer. Their number lies between what is acknowledged and what was sent.
   */
  lemma ReceivedIsSent(p: Transfer, io: Io, events: seq<Event>)
    requires TransferOK(p)
    ensures var sys := Run(p, io, events);
      && sys.accepted <= |sys.blocks| && BlocksHold(p, sys.blocks) && sys.r.got == Joined(sys.blocks, sys.accepted)
      && sys.s.bytesAcked <= |sys.r.got| <= sys.s.bytesSent <= |p.file|
  {
    RunHolds(p, io, events);
    CountsKept(p, Run(p, io, events));
  }

  // ----- retransmission ends

  function BudgetAt(p: Transfer, off: nat): nat {
    if IsFinal(p, off) then p.finalRetries else p.retries
  }

  /** Deadlines the blocks after the one at off can use up. */
  function Later(p: Transfer, off: nat): nat
    requires TransferOK(p)
    decreases |p.file| - off
  {
    if IsFinal(p, off) then 0 else BudgetAt(p, off + p.blockSize) + 1 + Later(p, off + p.blockSize)
  }

  /** Deadlines the sender can still use up before it ends. */
  function Patience(p: Transfer, s: Sender): nat
    requires TransferOK(p)
  {
    if s.result != Running || s.attempt > Budget(p, s) then 0
    else Budget(p, s) - s.attempt + 1 + if s.handshake then BudgetAt(p, 0) + 1 + Later(p, 0) else Later(p, s.off)
  }

  function Deadlines(events: seq<Event>): nat {
    if events == [] then 0
    else Deadlines(events[..|events| - 1]) + if events[|events| - 1].Expires? then 1 else 0
  }

  lemma ResultIsFinal(p: Transfer, sys: System, e: Event)
    ensures sys.s.result.Running? || Apply(p, sys, e).s == sys.s
  {
  }

  /** Each deadline is taken off the sender's patience, and no acknowledgement adds to it. */
  lemma StepSpends(p: Transfer, s: Sender, signal: Signal, io: Io)
    requires TransferOK(p) && (s.handshake ==> s.off == 0)
    requires s.result.Running? && s.attempt <= Budget(p, s) && Step(p, s, signal, io).sender.result.Running?
    ensures Patience(p, Step(p, s, signal, io).sender) + (if signal.Timeout? then 1 else 0) <= Patience(p, s)
  {
  }

  lemma PatienceSpent(p: Transfer, sys: System, e: Event)
    requires TransferOK(p) && Inv(p, sys) && Apply(p, sys, e).s.result.Running?
    ensures Patience(p, Apply(p, sys, e).s) + (if e.Expires? then 1 else 0) <= Patience(p, sys.s)
  {
    ResultIsFinal(p, sys, e);
    match e
    case Expires(io) => StepSpends(p, sys.s, Timeout, io);
    case AckArrives(io) =>
      if sys.acks != [] {
        StepSpends(p, sys.s, Ack(sys.acks[0].content), io);
      }
    case ClientSends(signal) =>
      if signal.Unexpected? {
        StepSpends(p, sys.s, signal, WORKS);
      }
    case _ =>
  }

  /** However the channels behave, a sender still running has seen fewer deadlines than its budgets add up to. */
  lemma {:induction false} RetransmissionEnds(p: Transfer, io: Io, events: seq<Event>)
    requires TransferOK(p)
    ensures var s := Run(p, io, events).s;
      s.result.Running? ==> Deadlines(events) + Patience(p, s) <= Patience(p, Start(p, io).sender)
    ensures Run(p, io, events).s.result.Running? ==> Deadlines(events) < Patience(p, Start(p, io).sender)
  {
    if events != [] {
      var last := |events| - 1;
      var before := Run(p, io, events[..last]);
      RetransmissionEnds(p, io, events[..last]);
      RunHolds(p, io, events[..last]);
      OneStepOn(p, before, events[last]);
    }
  }

  lemma OneStepOn(p: Transfer, sys: System, e: Event)
    requires TransferOK(p) && Inv(p, sys)
    ensures Apply(p, sys, e).s.result.Running? ==>
              && sys.s.result.Running?
              && Patience(p, Apply(p, sys, e).s) > 0
              && Patience(p, Apply(p, sys, e).s) + (if e.Expires? then 1 else 0) <= Patience(p, sys.s)
  {
    ResultIsFinal(p, sys, e);
    if Apply(p, sys, e).s.result.Running? {
      PatienceSpent(p, sys, e);
      ApplyHolds(p, sys, e);
    }
  }
}
