/**
 A TFTP read transfer: the stop-and-wait sender, a lock-step receiver (section 2 of RFC 1350) and two
 channels that lose and duplicate but keep order. Block numbers are 16 bits and wrap.
 */
module Tftp {
  import opened Bits

  const WRAP := 65536

  /** One transfer: the file, the block size and the retransmit budgets in force, and whether options were accepted. */
  datatype Transfer = Transfer(file: seq<byte>, blockSize: nat, retries: nat, finalRetries: nat, options: bool)

  predicate TransferOK(p: Transfer) { 1 <= p.blockSize }

  /** Bytes of the block at off. */
  function Want(p: Transfer, off: nat): (n: nat)
    ensures n <= p.blockSize && (off <= |p.file| ==> off + n <= |p.file|)
  {
    if |p.file| <= off then 0 else if |p.file| - off > p.blockSize then p.blockSize else |p.file| - off
  }

  predicate IsFinal(p: Transfer, off: nat) { Want(p, off) < p.blockSize }

  // ----- the sender

  datatype Packet = Oack | Data(block: nat, payload: seq<byte>)

  datatype Result = Running | Okay | Aborted | GaveUp | UnackedFinal | ReadError

  datatype Sender = Sender(
    handshake: bool,   // the option acknowledgement is out, not yet a block
    block: nat,        // uint16
    off: nat,
    buf: seq<byte>,    // one buffer for all blocks
    brought: nat,      // bytes the last read brought, which no step looks at
    attempt: nat,
    blocksSent: nat, bytesSent: nat, bytesAcked: nat, resends: nat,
    result: Result)

  /** What reaches the sender: the deadline passing, or a packet from the client. */
  datatype Signal = Timeout | Ack(block: nat) | ErrorPacket | Unexpected

  /** How a read of the file turns out: all bytes, an end of file after some of them, or another error. */
  datatype Read = Fills | Cut(got: nat) | Fails

  /** How the read and the send that a step may need turn out. */
  datatype Io = Io(read: Read, sends: bool)

  const WORKS := Io(Fills, true)

  function Awaited(s: Sender): nat { if s.handshake then 0 else s.block }

  function Budget(p: Transfer, s: Sender): nat {
    if !s.handshake && IsFinal(p, s.off) then p.finalRetries else p.retries
  }

  /** The part of the buffer that makes up the block. */
  function Cargo(p: Transfer, s: Sender): (c: seq<byte>)
    ensures |c| == Want(p, s.off)
  {
    seq(Want(p, s.off), i requires 0 <= i < Want(p, s.off) => if i < |s.buf| then s.buf[i] else 0)
  }

  /** The packet being sent and resent. */
  function Outgoing(p: Transfer, s: Sender): Packet {
    if s.handshake then Oack else Data(s.block, Cargo(p, s))
  }

  datatype SenderStep = SenderStep(sender: Sender, transmits: bool)

  /** Bytes of the block at off that a read brings. */
  function Brought(p: Transfer, off: nat, read: Read): (n: nat)
    ensures n <= Want(p, off)
  {
    match read
    case Fills => Want(p, off)
    case Cut(got) => if got < Want(p, off) then got else Want(p, off)
    case Fails => 0
  }

  /** The buffer after a read brought so many bytes: what it did not bring is as it was. */
  function Refilled(p: Transfer, off: nat, buf: seq<byte>, brought: nat): (b: seq<byte>)
    ensures |b| == p.blockSize
  {
    seq(p.blockSize, i requires 0 <= i < p.blockSize =>
      if i < brought && off + i < |p.file| then p.file[off + i] else if i < |buf| then buf[i] else 0)
  }

  /** Reads and sends the block s has come to. An end of file is no error, and an empty final block needs no read. */
  function BeginBlock(p: Transfer, s: Sender, io: Io): SenderStep {
    if io.read.Fails? && Want(p, s.off) > 0 then SenderStep(s.(result := ReadError), false)
    else
      var n := Brought(p, s.off, io.read);
      var s1 := s.(buf := Refilled(p, s.off, s.buf, n), brought := n, attempt := 0,
                   blocksSent := s.blocksSent + 1, bytesSent := s.bytesSent + Want(p, s.off));
      if io.sends then SenderStep(s1, true) else SenderStep(s1.(result := Aborted), false)
  }

  /** A sender at the start, its buffer cleared. */
  function Fresh(p: Transfer): Sender {
    Sender(p.options, 1, 0, seq(p.blockSize, _ => 0), 0, 0, 0, 0, 0, 0, Running)
  }

  function Start(p: Transfer, io: Io): SenderStep {
    var s := Fresh(p);
    if !p.options then BeginBlock(p, s, io)
    else if io.sends then SenderStep(s, true)
    else SenderStep(s.(result := Aborted), false)
  }

  function OnAck(p: Transfer, s: Sender, io: Io): SenderStep {
    if s.handshake then BeginBlock(p, s.(handshake := false), io)
    else
      var s1 := s.(bytesAcked := s.bytesAcked + Want(p, s.off));
      if IsFinal(p, s.off) then SenderStep(s1.(result := Okay), false)
      else BeginBlock(p, s1.(block := (s.block + 1) % WRAP, off := s.off + p.blockSize), io)
  }

  function OnTimeout(p: Transfer, s: Sender, io: Io): SenderStep {
    if s.attempt < Budget(p, s) then
      var s1 := s.(attempt := s.attempt + 1, resends := s.resends + 1);
      if io.sends then SenderStep(s1, true) else SenderStep(s1.(result := Aborted), false)
    else if !s.handshake && IsFinal(p, s.off) then SenderStep(s.(result := UnackedFinal), false)
    else SenderStep(s.(result := GaveUp), false)
  }

  function Step(p: Transfer, s: Sender, signal: Signal, io: Io): SenderStep {
    if s.result != Running then SenderStep(s, false)
    else
      match signal
      case Timeout => OnTimeout(p, s, io)
      case Ack(n) => if n == Awaited(s) then OnAck(p, s, io) else SenderStep(s, false)
      case ErrorPacket => SenderStep(s.(result := Aborted), false)
      case Unexpected => SenderStep(s, false)
  }

  // ----- the receiver

  datatype Receiver = Receiver(
    settled: bool,     // no option acknowledgement is awaited
    next: nat,         // uint16
    got: seq<byte>,
    finished: bool)    // a block shorter than the block size has come

  datatype Received = Received(receiver: Receiver, acks: seq<nat>)

  /** Takes the block it expects, acknowledges that and the one before it, and ignores all else. */
  function Receive(r: Receiver, packet: Packet, blockSize: nat): Received {
    match packet
    case Oack =>
      if r.next == 1 && r.got == [] then Received(r.(settled := true), [0]) else Received(r, [])
    case Data(b, payload) =>
      if !r.settled then Received(r, [])
      else if b == r.next && !r.finished then
        Received(r.(next := (r.next + 1) % WRAP, got := r.got + payload, finished := |payload| < blockSize), [b])
      else if (b + 1) % WRAP == r.next then Received(r, [b])
      else Received(r, [])
  }

  // ----- the system

  /** A message in a channel; its index is history, which no step looks at. */
  datatype Message<T> = Message(content: T, index: nat)

  /** A block as it went out, and how many of its bytes the read brought. */
  datatype Block = Block(cargo: seq<byte>, brought: nat)

  /**
   Both ends, the channels, and as history: how far each end has come (0 is the option acknowledgement), the blocks
   begun and all packets sent.
   */
  datatype System = System(
    s: Sender, r: Receiver, data: seq<Message<Packet>>, acks: seq<Message<nat>>,
    sending: nat, accepted: int, blocks: seq<Block>, sent: seq<Packet>)

  datatype Event =
    | Expires(io: Io) | AckArrives(io: Io) | ClientSends(signal: Signal)
    | DataArrives
    | DataLost(i: nat) | DataDoubled(i: nat) | AckLost(i: nat) | AckDoubled(i: nat)

  function Remove<T>(c: seq<T>, i: nat): seq<T> {
    if i < |c| then c[..i] + c[i + 1..] else c
  }

  function Double<T>(c: seq<T>, i: nat): seq<T> {
    if i < |c| then c[..i] + [c[i]] + c[i..] else c
  }

  /** The sender's place after a step: one further when it has come to another block. */
  function Place(sys: System, s: Sender): nat {
    if (sys.s.handshake && !s.handshake) || s.off > sys.s.off then sys.sending + 1 else sys.sending
  }

  function SenderMoves(p: Transfer, sys: System, step: SenderStep): System {
    var s, k := step.sender, Place(sys, step.sender);
    var packet := Outgoing(p, s);
    sys.(s := s, sending := k,
         data := if step.transmits then sys.data + [Message(packet, k)] else sys.data,
         sent := if step.transmits then sys.sent + [packet] else sys.sent,
         blocks := if k == sys.sending || s.result.ReadError? then sys.blocks
                   else sys.blocks + [Block(Cargo(p, s), s.brought)])
  }

  /** Before the first step. */
  function Origin(p: Transfer): System {
    System(Fresh(p).(handshake := true), Receiver(!p.options, 1, [], false), [], [], 0, if p.options then -1 else 0,
        [], [])
  }

  function Initial(p: Transfer, io: Io): System {
    SenderMoves(p, Origin(p), Start(p, io))
  }

  function ReceiverMoves(p: Transfer, sys: System): System
    requires sys.data != []
  {
    var x := Receive(sys.r, sys.data[0].content, p.blockSize);
    var moved := x.receiver.next != sys.r.next || x.receiver.settled != sys.r.settled;
    sys.(r := x.receiver, data := sys.data[1..], accepted := if moved then sys.accepted + 1 else sys.accepted,
         acks := sys.acks + seq(|x.acks|, i requires 0 <= i < |x.acks| => Message(x.acks[i], sys.data[0].index)))
  }

  function Apply(p: Transfer, sys: System, e: Event): System {
    match e
    case Expires(io) => SenderMoves(p, sys, Step(p, sys.s, Timeout, io))
    case AckArrives(io) =>
      if sys.acks == [] then sys
      else SenderMoves(p, sys.(acks := sys.acks[1..]), Step(p, sys.s, Ack(sys.acks[0].content), io))
    case ClientSends(signal) =>
      if signal.ErrorPacket? || signal.Unexpected? then SenderMoves(p, sys, Step(p, sys.s, signal, WORKS)) else sys
    case DataArrives => if sys.data == [] then sys else ReceiverMoves(p, sys)
    case DataLost(i) => sys.(data := Remove(sys.data, i))
    case DataDoubled(i) => sys.(data := Double(sys.data, i))
    case AckLost(i) => sys.(acks := Remove(sys.acks, i))
    case AckDoubled(i) => sys.(acks := Double(sys.acks, i))
  }

  /** The state after a run. */
  function Run(p: Transfer, io: Io, events: seq<Event>): System {
    if events == [] then Initial(p, io) else Apply(p, Run(p, io, events[..|events| - 1]), events[|events| - 1])
  }
}
