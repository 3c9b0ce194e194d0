/** How often a packet goes out before the sender gives up, told from what it has sent and the budgets alone. */
module TftpPatience {
  import opened Tftp
  import opened TftpSafety
  import opened TftpSender

  /** How often the last packet has gone out in a row. */
  function Tries(sent: seq<Packet>): (n: nat)
    ensures n <= |sent|
  {
    var last := |sent| - 1;
    if sent == [] then 0
    else if last > 0 && sent[last] == sent[last - 1] then Tries(sent[..last]) + 1
    else 1
  }

  lemma TriesMore(sent: seq<Packet>, packet: Packet)
    ensures Tries(sent + [packet]) == if sent != [] && sent[|sent| - 1] == packet then Tries(sent) + 1 else 1
  {
    assert (sent + [packet])[..|sent|] == sent;
  }

  /** They are all the same packet. */
  lemma {:induction false} TriesAre(sent: seq<Packet>)
    ensures forall i | |sent| - Tries(sent) <= i < |sent| :: sent[i] == sent[|sent| - 1]
  {
    var last := |sent| - 1;
    if last > 0 && sent[last] == sent[last - 1] {
      TriesAre(sent[..last]);
    }
  }

  predicate IsShort(p: Transfer, packet: Packet) { packet.Data? && |packet.payload| < p.blockSize }

  /** Resends of a packet that the budgets allow. */
  function Allowed(p: Transfer, packet: Packet): nat {
    if IsShort(p, packet) then p.finalRetries else p.retries
  }

  /** The packet the sender waits with went out last, and as often as it has been tried. */
  predicate Stands(p: Transfer, t: Trace) {
    && t.sent != [] && t.sent[|t.sent| - 1] == Outgoing(p, t.s) && Tries(t.sent) == t.s.attempt + 1
  }

  predicate Waits(r: Result) { r.Running? || r.GaveUp? || r.UnackedFinal? }

  predicate TraceOK(p: Transfer, t: Trace) {
    && (Waits(t.s.result) ==> Stands(p, t))
    && (t.s.result.Running? ==> t.s.block < WRAP && t.s.attempt <= Allowed(p, Outgoing(p, t.s)))
    && (t.s.result.GaveUp? ==> !IsShort(p, Outgoing(p, t.s)) && t.s.attempt == p.retries)
    && (t.s.result.UnackedFinal? ==> IsShort(p, Outgoing(p, t.s)) && t.s.attempt == p.finalRetries)
  }

  lemma BeginOK(p: Transfer, sent: seq<Packet>, s: Sender, io: Io)
    requires s.result.Running? && !s.handshake && s.block < WRAP
    requires sent == [] || sent[|sent| - 1].Oack? || sent[|sent| - 1].block != s.block
    ensures TraceOK(p, Extend(p, sent, BeginBlock(p, s, io)))
  {
    var step := BeginBlock(p, s, io);
    TriesMore(sent, Outgoing(p, step.sender));
  }

  lemma NextBlockOK(p: Transfer, t: Trace, s: Sender, io: Io)
    requires TraceOK(p, t) && t.s.result.Running? && !t.s.handshake
    requires s.result.Running? && !s.handshake && s.block == (t.s.block + 1) % WRAP
    ensures TraceOK(p, Extend(p, t.sent, BeginBlock(p, s, io))) == true
  {
    NeighboursDiffer(t.s.block);
    BeginOK(p, t.sent, s, io);
  }

  lemma HandshakeOK(p: Transfer, t: Trace, io: Io)
    requires TraceOK(p, t) && t.s.result.Running? && t.s.handshake
    ensures TraceOK(p, Extend(p, t.sent, OnAck(p, t.s, io))) == true
  {
    BeginOK(p, t.sent, t.s.(handshake := false), io);
  }

  lemma AckOK(p: Transfer, t: Trace, io: Io)
    requires TraceOK(p, t) == true && t.s.result.Running?
    ensures TraceOK(p, Extend(p, t.sent, OnAck(p, t.s, io))) == true
  {
    var s := t.s;
    if s.handshake {
      HandshakeOK(p, t, io);
    } else if !IsFinal(p, s.off) {
      var acked := s.(bytesAcked := s.bytesAcked + Want(p, s.off));
      NextBlockOK(p, t, acked.(block := (s.block + 1) % WRAP, off := s.off + p.blockSize), io);
    } else {
      EndedOK(p, Extend(p, t.sent, OnAck(p, s, io)));
    }
  }

  lemma EndedOK(p: Transfer, t: Trace)
    requires t.s.result.Okay? || t.s.result.Aborted? || t.s.result.ReadError?
    ensures TraceOK(p, t) == true
  {
  }

  lemma TimeoutOK(p: Transfer, t: Trace, io: Io)
    requires TraceOK(p, t) && t.s.result.Running?
    ensures TraceOK(p, Extend(p, t.sent, OnTimeout(p, t.s, io)))
  {
    TriesMore(t.sent, Outgoing(p, t.s));
    assert Outgoing(p, t.s.(attempt := t.s.attempt + 1, resends := t.s.resends + 1)) == Outgoing(p, t.s);
    assert Outgoing(p, t.s.(result := GaveUp)) == Outgoing(p, t.s.(result := UnackedFinal)) == Outgoing(p, t.s);
  }

  lemma StepOK(p: Transfer, t: Trace, signal: Signal, io: Io)
    requires TraceOK(p, t)
    ensures TraceOK(p, Extend(p, t.sent, Step(p, t.s, signal, io)))
  {
    if t.s.result.Running? {
      match signal
      case Timeout => TimeoutOK(p, t, io);
      case Ack(n) => if n == Awaited(t.s) { AckOK(p, t, io); }
      case ErrorPacket =>
      case Unexpected =>
    }
  }

  lemma StartOK(p: Transfer, io: Io)
    ensures TraceOK(p, Extend(p, [], Start(p, io)))
  {
    if p.options {
      TriesMore([], Oack);
    } else {
      BeginOK(p, [], Fresh(p), io);
    }
  }

  lemma {:induction false} RunOK(p: Transfer, io: Io, script: seq<Input>)
    ensures TraceOK(p, RunSender(p, io, script)) == true
  {
    if script == [] {
      StartOK(p, io);
    } else {
      var front, last := script[..|script| - 1], script[|script| - 1];
      RunOK(p, io, front);
      StepOK(p, RunSender(p, io, front), last.signal, last.io);
    }
  }

  /**
   A sender gives up only after the option acknowledgement or a full block has gone out once more than retries, and
   leaves a short block unacknowledged only after it has gone out once more than finalRetries.
   */
  lemma GivesUpLast(p: Transfer, io: Io, script: seq<Input>)
    ensures var t := RunSender(p, io, script);
      && (t.s.result.GaveUp? ==> Tries(t.sent) == p.retries + 1 && !IsShort(p, t.sent[|t.sent| - 1]))
      && (t.s.result.UnackedFinal? ==> Tries(t.sent) == p.finalRetries + 1 && IsShort(p, t.sent[|t.sent| - 1]))
  {
    RunOK(p, io, script);
    StandsGivenUp(p, RunSender(p, io, script));
  }

  lemma StandsGivenUp(p: Transfer, t: Trace)
    requires TraceOK(p, t)
    ensures t.s.result.GaveUp? ==>
              t.sent != [] && Tries(t.sent) == p.retries + 1 && !IsShort(p, t.sent[|t.sent| - 1])
    ensures t.s.result.UnackedFinal? ==>
              t.sent != [] && Tries(t.sent) == p.finalRetries + 1 && IsShort(p, t.sent[|t.sent| - 1])
  {
  }

  /** So does the sender in every run of the system. */
  lemma RunGivesUpLast(p: Transfer, io: Io, events: seq<Event>)
    ensures var sys := Run(p, io, events);
      && (sys.s.result.GaveUp? ==> Tries(sys.sent) == p.retries + 1 && !IsShort(p, sys.sent[|sys.sent| - 1]))
      && (sys.s.result.UnackedFinal? ==>
            Tries(sys.sent) == p.finalRetries + 1 && IsShort(p, sys.sent[|sys.sent| - 1]))
  {
    LoopsAreSystem(p, io, events);
    GivesUpLast(p, io, ScriptOf(p, io, events));
  }

  /**
   Until then each deadline sends the same packet once more, if the send works; and then the next deadline ends the
   transfer without sending.
   */
  lemma DeadlineResends(p: Transfer, io: Io, script: seq<Input>, sends: Io)
    requires RunSender(p, io, script).s.result.Running?
    ensures var t, u := RunSender(p, io, script), RunSender(p, io, script + [Input(Timeout, sends)]);
      && t.sent != []
      && var packet := t.sent[|t.sent| - 1];
         if Tries(t.sent) <= Allowed(p, packet) then
           if sends.sends then u.s.result.Running? && u.sent == t.sent + [packet]
           else u.s.result.Aborted? && u.sent == t.sent
         else u.sent == t.sent && u.s.result == if IsShort(p, packet) then UnackedFinal else GaveUp
  {
    RunOK(p, io, script);
    HeardOne(p, io, script, Input(Timeout, sends));
  }

  /** And whatever else comes but an error or the awaited acknowledgement, it goes on waiting. */
  lemma KeepsWaiting(p: Transfer, io: Io, script: seq<Input>, i: Input)
    requires RunSender(p, io, script).s.result.Running? && (i.signal.Unexpected? || i.signal.Ack?)
    ensures var t, u := RunSender(p, io, script), RunSender(p, io, script + [i]);
      && t.sent != []
      && var packet := t.sent[|t.sent| - 1];
         u == t || i.signal == Ack(if packet.Oack? then 0 else packet.block)
  {
    RunOK(p, io, script);
    HeardOne(p, io, script, i);
  }

  // ----- how else a transfer ends

  /** The awaited acknowledgement has come, and another block is to be sent. */
  predicate BeginsNext(p: Transfer, s: Sender, signal: Signal) {
    signal == Ack(Awaited(s)) && (s.handshake || !IsFinal(p, s.off))
  }

  function NextOff(p: Transfer, s: Sender): nat { if s.handshake then s.off else s.off + p.blockSize }

  /** A read error ends a transfer exactly when the next block has bytes and reading them fails. */
  lemma ReadErrorIs(p: Transfer, io: Io, script: seq<Input>, i: Input)
    requires TransferOK(p) && RunSender(p, io, script).s.result.Running?
    ensures var t, u := RunSender(p, io, script), RunSender(p, io, script + [i]);
      && (u.s.result.ReadError? <==> BeginsNext(p, t.s, i.signal) && NextOff(p, t.s) < |p.file| && i.io.read.Fails?)
      && (u.s.result.ReadError? ==> u.sent == t.sent)
  {
    HeardOne(p, io, script, i);
    StepReads(p, RunSender(p, io, script), i);
  }

  lemma StepReads(p: Transfer, t: Trace, i: Input)
    requires TransferOK(p) && t.s.result.Running?
    ensures var u := Extend(p, t.sent, Step(p, t.s, i.signal, i.io));
      && (u.s.result.ReadError? <==> BeginsNext(p, t.s, i.signal) && NextOff(p, t.s) < |p.file| && i.io.read.Fails?)
      && (u.s.result.ReadError? ==> u.sent == t.sent)
  {
  }

  /** A packet that is due: again within the budget, or a block that could be read. */
  predicate SendIsDue(p: Transfer, t: Trace, i: Input)
    requires t.sent != []
  {
    || (i.signal.Timeout? && Tries(t.sent) <= Allowed(p, t.sent[|t.sent| - 1]))
    || (BeginsNext(p, t.s, i.signal) && !(NextOff(p, t.s) < |p.file| && i.io.read.Fails?))
  }

  lemma StepSends(p: Transfer, t: Trace, i: Input)
    requires TransferOK(p) && TraceOK(p, t) && t.s.result.Running?
    ensures var u := Extend(p, t.sent, Step(p, t.s, i.signal, i.io));
      && (u.s.result.Aborted? <==> i.signal.ErrorPacket? || (SendIsDue(p, t, i) && !i.io.sends))
      && |u.sent| == |t.sent| + if SendIsDue(p, t, i) && i.io.sends then 1 else 0
  {
  }

  /** It is aborted exactly by the client's error or by a send that fails; and a send that works goes out. */
  lemma AbortedIs(p: Transfer, io: Io, script: seq<Input>, i: Input)
    requires TransferOK(p) && RunSender(p, io, script).s.result.Running?
    ensures var t, u := RunSender(p, io, script), RunSender(p, io, script + [i]);
      && t.sent != []
      && (u.s.result.Aborted? <==> i.signal.ErrorPacket? || (SendIsDue(p, t, i) && !i.io.sends))
      && |u.sent| == |t.sent| + if SendIsDue(p, t, i) && i.io.sends then 1 else 0
  {
    RunOK(p, io, script);
    HeardOne(p, io, script, i);
    StepSends(p, RunSender(p, io, script), i);
  }

  /** A transfer begins with the option acknowledgement, or else with block 1, unless it cannot be read or sent. */
  lemma FirstSent(p: Transfer, io: Io)
    requires TransferOK(p)
    ensures var t := RunSender(p, io, []);
      var unread := !p.options && p.file != [] && io.read.Fails?;
      && (t.s.result.ReadError? <==> unread)
      && (t.s.result.Aborted? <==> !unread && !io.sends)
      && (t.s.result.Running? <==> !unread && io.sends)
      && if t.s.result.Running? then |t.sent| == 1 && (if p.options then t.sent[0].Oack?
                                                       else t.sent[0].Data? && t.sent[0].block == 1)
         else t.sent == []
  {
  }

  // ----- counters

  /** Every packet that went out was a block's first, a resend or the option acknowledgement. */
  predicate Counted(p: Transfer, t: Trace) {
    var due := t.s.blocksSent + t.s.resends + if p.options then 1 else 0;
    |t.sent| == due || (t.s.result.Aborted? && |t.sent| + 1 == due)
  }

  lemma CountedStep(p: Transfer, t: Trace, signal: Signal, io: Io)
    requires Counted(p, t)
    ensures Counted(p, Extend(p, t.sent, Step(p, t.s, signal, io)))
  {
  }

  lemma {:induction false} SentCounted(p: Transfer, io: Io, script: seq<Input>)
    ensures Counted(p, RunSender(p, io, script))
  {
    if script != [] {
      var front, last := script[..|script| - 1], script[|script| - 1];
      SentCounted(p, io, front);
      CountedStep(p, RunSender(p, io, front), last.signal, last.io);
    }
  }
}
