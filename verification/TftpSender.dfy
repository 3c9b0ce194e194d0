/** The sender's loops, driven by a script of what reaches it, and the state machine they are equal to. */
module TftpSender {
  import opened Tftp
  import opened TftpSafety
  import opened TftpContents

  /** The next thing that reaches the sender, and how the read or send it leads to turns out. */
  datatype Input = Input(signal: Signal, io: Io)

  datatype Trace = Trace(s: Sender, sent: seq<Packet>)

  function Extend(p: Transfer, sent: seq<Packet>, step: SenderStep): Trace {
    Trace(step.sender, if step.transmits then sent + [Outgoing(p, step.sender)] else sent)
  }

  /** The state machine run over a script. */
  function RunSender(p: Transfer, io: Io, script: seq<Input>): Trace {
    if script == [] then Extend(p, [], Start(p, io))
    else
      var last := script[|script| - 1];
      var t := RunSender(p, io, script[..|script| - 1]);
      Extend(p, t.sent, Step(p, t.s, last.signal, last.io))
  }

  /** What the machine goes through on a script: where it stands before each input, and at the end. */
  ghost predicate IsHistory(p: Transfer, script: seq<Input>, h: seq<Trace>) {
    |h| == |script| + 1 && forall i {:trigger StepsAt(p, script, h, i)} | 0 <= i < |script| :: StepsAt(p, script, h, i)
  }

  predicate StepsAt(p: Transfer, script: seq<Input>, h: seq<Trace>, i: nat)
    requires i < |script| && |h| == |script| + 1
  {
    h[i + 1] == Extend(p, h[i].sent, Step(p, h[i].s, script[i].signal, script[i].io))
  }

  lemma {:induction false} HistoryOf(p: Transfer, io: Io, script: seq<Input>) returns (h: seq<Trace>)
    ensures IsHistory(p, script, h) && h[0] == Extend(p, [], Start(p, io)) && h[|script|] == RunSender(p, io, script)
  {
    if script == [] {
      h := [Extend(p, [], Start(p, io))];
    } else {
      var front := script[..|script| - 1];
      var before := HistoryOf(p, io, front);
      h := before + [RunSender(p, io, script)];
      forall i | 0 <= i < |script| ensures StepsAt(p, script, h, i) {
        if i < |front| {
          assert StepsAt(p, front, before, i);
        }
      }
    }
  }

  lemma RunStep(p: Transfer, h: seq<Trace>, script: seq<Input>, pos: nat)
    requires IsHistory(p, script, h) && pos < |script|
    ensures h[pos + 1] == Extend(p, h[pos].sent, Step(p, h[pos].s, script[pos].signal, script[pos].io))
  {
    assert StepsAt(p, script, h, pos);
  }

  /** Once ended, a transfer takes no notice of the rest of the script. */
  lemma {:induction false} EndedStays(p: Transfer, h: seq<Trace>, script: seq<Input>, pos: nat)
    requires IsHistory(p, script, h)
    requires pos <= |script| && h[pos].s.result != Running
    ensures h[|script|] == h[pos]
    decreases |script| - pos
  {
    if pos < |script| {
      RunStep(p, h, script, pos);
      EndedStays(p, h, script, pos + 1);
    }
  }

  /** Packets that are not awaited change nothing. */
  lemma PassedOver(p: Transfer, h: seq<Trace>, script: seq<Input>, pos: nat, s: Sender, sent: seq<Packet>)
    requires IsHistory(p, script, h)
    requires pos < |script| && s.result.Running? && h[pos] == Trace(s, sent)
    requires script[pos].signal.Unexpected? || (script[pos].signal.Ack? && script[pos].signal.block != Awaited(s))
    ensures h[pos + 1] == Trace(s, sent)
  {
    RunStep(p, h, script, pos);
  }

  datatype Wait = Acked | WaitAborted | OutOfTries | StillWaiting

  /** Waits for the awaited acknowledgement until the deadline: other packets are passed over. */
  method AwaitAck(p: Transfer, ghost h: seq<Trace>, script: seq<Input>, start: nat, s: Sender, ghost sent: seq<Packet>)
    returns (pos: nat, w: Wait)
    requires IsHistory(p, script, h)
    requires start <= |script| && s.result.Running? && h[start] == Trace(s, sent)
    ensures start <= pos <= |script|
    ensures w.StillWaiting? ==> pos == |script|
    ensures !w.StillWaiting? ==> pos < |script|
    ensures h[pos] == Trace(s, sent)
    ensures w.Acked? ==> script[pos].signal == Ack(Awaited(s))
    ensures w.WaitAborted? ==> script[pos].signal.ErrorPacket?
    ensures w.OutOfTries? ==> script[pos].signal.Timeout?
  {
    pos := start;
    while pos < |script|
      invariant start <= pos <= |script| && h[pos] == Trace(s, sent)
    {
      match script[pos].signal {
        case Timeout => return pos, OutOfTries;
        case Ack(n) =>
          if n == Awaited(s) {
            return pos, Acked;
          }
        case ErrorPacket => return pos, WaitAborted;
        case Unexpected =>
      }
      PassedOver(p, h, script, pos, s, sent);
      pos := pos + 1;
    }
    w := StillWaiting;
  }

  /** A deadline within the budget sends the packet once more. */
  lemma Resent(p: Transfer, h: seq<Trace>, script: seq<Input>, pos: nat, s: Sender, sent: seq<Packet>)
    requires IsHistory(p, script, h)
    requires pos < |script| && h[pos] == Trace(s, sent)
    requires s.result.Running? && script[pos].signal.Timeout? && s.attempt < Budget(p, s)
    ensures var again := s.(attempt := s.attempt + 1, resends := s.resends + 1);
      h[pos + 1]
        == if script[pos].io.sends then Trace(again, sent + [Outgoing(p, s)])
            else Trace(again.(result := Aborted), sent)
  {
    RunStep(p, h, script, pos);
  }

  /** An error packet ends the transfer. */
  lemma AbortedBy(p: Transfer, h: seq<Trace>, script: seq<Input>, pos: nat, s: Sender, sent: seq<Packet>)
    requires IsHistory(p, script, h)
    requires pos < |script| && h[pos] == Trace(s, sent)
    requires s.result.Running? && script[pos].signal.ErrorPacket?
    ensures h[|script|] == Trace(s.(result := Aborted), sent)
  {
    RunStep(p, h, script, pos);
    EndedStays(p, h, script, pos + 1);
  }

  lemma WaitOver(p: Transfer, h: seq<Trace>, script: seq<Input>, pos: nat, w: Wait, s: Sender, sent: seq<Packet>)
    requires IsHistory(p, script, h)
    requires pos <= |script| && s.result.Running? && h[pos] == Trace(s, sent)
    requires w.StillWaiting? ==> pos == |script|
    requires w.WaitAborted? ==> pos < |script| && script[pos].signal.ErrorPacket?
    ensures w.StillWaiting? ==> h[|script|] == Trace(s, sent)
    ensures w.WaitAborted? ==> h[|script|] == Trace(s.(result := Aborted), sent)
  {
    if w.WaitAborted? {
      AbortedBy(p, h, script, pos, s, sent);
    }
  }

  /** Sends the packet and waits. */
  method OneTry(p: Transfer, ghost h: seq<Trace>, script: seq<Input>, start: nat, s: Sender, sent0: seq<Packet>)
    returns (pos: nat, w: Wait, sent: seq<Packet>)
    requires IsHistory(p, script, h)
    requires start <= |script| && s.result.Running?
    requires h[start] == Trace(s, sent0 + [Outgoing(p, s)])
    ensures start <= pos <= |script| && sent == sent0 + [Outgoing(p, s)]
    ensures w.StillWaiting? ==> h[|script|] == Trace(s, sent)
    ensures w.WaitAborted? ==> h[|script|] == Trace(s.(result := Aborted), sent)
    ensures w.Acked? || w.OutOfTries? ==> pos < |script| && h[pos] == Trace(s, sent)
    ensures w.Acked? ==> script[pos].signal == Ack(Awaited(s))
    ensures w.OutOfTries? ==> script[pos].signal.Timeout?
  {
    sent := sent0 + [Outgoing(p, s)];
    pos, w := AwaitAck(p, h, script, start, s, sent);
    WaitOver(p, h, script, pos, w, s, sent);
  }

  /**
   Sends a packet, and again after each deadline, up to the budget. On return the machine stands before the input
   that ended the wait, or the script is used up.
   */
  method SendAndWaitAck(p: Transfer, ghost h: seq<Trace>, script: seq<Input>, start: nat, s0: Sender,
      sent0: seq<Packet>)
    returns (pos: nat, w: Wait, s: Sender, sent: seq<Packet>)
    requires IsHistory(p, script, h)
    requires start <= |script| && s0.result.Running? && s0.attempt == 0
    requires h[start] == Trace(s0, sent0 + [Outgoing(p, s0)])
    ensures start <= pos <= |script|
    ensures s == s0.(attempt := s.attempt, resends := s.resends, result := s.result)
    ensures w.StillWaiting? ==> h[|script|] == Trace(s, sent)
    ensures w.WaitAborted? ==> s.result.Aborted? && h[|script|] == Trace(s, sent)
    ensures w.Acked? || w.OutOfTries? ==>
              pos < |script| && s.result.Running? && h[pos] == Trace(s, sent)
    ensures w.Acked? ==> script[pos].signal == Ack(Awaited(s))
    ensures w.OutOfTries? ==> script[pos].signal.Timeout? && s.attempt == Budget(p, s)
  {
    pos, s, sent, w := start, s0, sent0, StillWaiting;
    var fails := false;
    var attempt := 0;
    while attempt <= Budget(p, s0)
      invariant start <= pos <= |script| && attempt <= Budget(p, s0) && w.StillWaiting?
      invariant s == s0.(attempt := attempt, resends := s.resends, result := if fails then Aborted else Running)
      invariant h[pos] == Trace(s, if fails then sent else sent + [Outgoing(p, s0)])
      invariant Outgoing(p, s) == Outgoing(p, s0)
      decreases Budget(p, s0) - attempt
    {
      if fails {
        EndedStays(p, h, script, pos);
        return pos, WaitAborted, s, sent;
      }
      pos, w, sent := OneTry(p, h, script, pos, s, sent);
      if w.WaitAborted? {
        s := s.(result := Aborted);
      }
      if !w.OutOfTries? {
        return;
      }
      if attempt == Budget(p, s0) {
        return;
      }
      Resent(p, h, script, pos, s, sent);
      fails := !script[pos].io.sends;
      attempt, pos, w := attempt + 1, pos + 1, StillWaiting;
      s := s.(attempt := attempt, resends := s.resends + 1, result := if fails then Aborted else Running);
    }
  }

  /** One block: read, sent, waited for. more says that the next block is to be begun from s. */
  method ServeBlock(p: Transfer, ghost h: seq<Trace>, script: seq<Input>, start: nat, s0: Sender, sent0: seq<Packet>,
      io: Io)
    returns (more: bool, pos: nat, s: Sender, sent: seq<Packet>, next: Io)
    requires IsHistory(p, script, h)
    requires TransferOK(p) && start <= |script| && s0.result.Running? && !s0.handshake && s0.off <= |p.file|
    requires h[start] == Extend(p, sent0, BeginBlock(p, s0, io))
    ensures !more ==> h[|script|] == Trace(s, sent)
    ensures pos <= |script|
    ensures more ==> s.result.Running? && !s.handshake && s0.off < s.off <= |p.file|
    ensures more ==> h[pos] == Extend(p, sent, BeginBlock(p, s, next))
  {
    more, pos, s, sent, next := false, start, s0, sent0, io;
    var want := Want(p, s.off);
    if want > 0 && io.read.Fails? {
      s := s.(result := ReadError);
      EndedStays(p, h, script, start);
      return;
    }
    var n := Brought(p, s.off, io.read);
    s := s.(buf := Refilled(p, s.off, s.buf, n), brought := n);
    s := s.(attempt := 0, blocksSent := s.blocksSent + 1, bytesSent := s.bytesSent + want);
    if !io.sends {
      s := s.(result := Aborted);
      EndedStays(p, h, script, start);
      return;
    }
    var w;
    pos, w, s, sent := SendAndWaitAck(p, h, script, start, s, sent);
    if w.OutOfTries? || w.Acked? {
      more, pos, s, next := Conclude(p, h, script, pos, w, s, sent);
    }
  }

  /** An acknowledged block is followed by the next one unless it was the last. */
  method ConcludeAcked(p: Transfer, ghost t: Trace, s0: Sender, ghost sent: seq<Packet>, next: Io)
      returns (more: bool, s: Sender)
    requires TransferOK(p) && !s0.handshake && s0.off <= |p.file| && s0.result.Running?
    requires t == Extend(p, sent, OnAck(p, s0, next))
    ensures !more ==> t == Trace(s, sent) && !s.result.Running?
    ensures more ==> s.result.Running? && !s.handshake && s.off == s0.off + p.blockSize <= |p.file|
    ensures more ==> t == Extend(p, sent, BeginBlock(p, s, next))
  {
    var want := Want(p, s0.off);
    s := s0.(bytesAcked := s0.bytesAcked + want);
    more := want >= p.blockSize;
    if more {
      s := s.(block := (s.block + 1) % WRAP, off := s.off + p.blockSize);
    } else {
      s := s.(result := Okay);
    }
  }

  /** After a wait: an acknowledged block is followed by the next one, and everything else ends the transfer. */
  method Conclude(p: Transfer, ghost h: seq<Trace>, script: seq<Input>, at: nat, w: Wait, s0: Sender,
      ghost sent: seq<Packet>)
    returns (more: bool, pos: nat, s: Sender, next: Io)
    requires IsHistory(p, script, h)
    requires TransferOK(p) && at < |script| && s0.result.Running? && !s0.handshake && s0.off <= |p.file|
    requires h[at] == Trace(s0, sent)
    requires (w.Acked? && script[at].signal == Ack(Awaited(s0)))
          || (w.OutOfTries? && script[at].signal.Timeout? && s0.attempt == Budget(p, s0))
    ensures !more ==> h[|script|] == Trace(s, sent)
    ensures pos == at + 1
    ensures more ==> s.result.Running? && !s.handshake && s.off <= |p.file| && s.off == s0.off + p.blockSize
    ensures more ==> h[pos] == Extend(p, sent, BeginBlock(p, s, next))
  {
    more, pos, s, next := false, at + 1, s0, script[at].io;
    ghost var t := h[pos];
    RunStep(p, h, script, at);
    if w.Acked? {
      more, s := ConcludeAcked(p, t, s0, sent, next);
    } else {
      s := s.(result := if Want(p, s.off) < p.blockSize then UnackedFinal else GaveUp);
    }
    if !more {
      EndedStays(p, h, script, pos);
    }
  }

  /** The whole transfer: the option acknowledgement if there is one, then block after block. */
  method ServeFile(p: Transfer, io: Io, script: seq<Input>) returns (t: Trace)
    requires TransferOK(p)
    ensures t == RunSender(p, io, script)
  {
    var s := Fresh(p);
    var sent: seq<Packet> := [];
    var pos: nat, next := 0, io;
    ghost var h := HistoryOf(p, io, script);
    if p.options {
      if !io.sends {
        EndedStays(p, h, script, 0);
        return Trace(s.(result := Aborted), sent);
      }
      var w;
      pos, w, s, sent := SendAndWaitAck(p, h, script, 0, s, sent);
      if w.WaitAborted? || w.StillWaiting? {
        return Trace(s, sent);
      }
      RunStep(p, h, script, pos);
      if w.OutOfTries? {
        s := s.(result := GaveUp);
        EndedStays(p, h, script, pos + 1);
        return Trace(s, sent);
      }
      s, next, pos := s.(handshake := false), script[pos].io, pos + 1;
    }
    var more := true;
    while more
      invariant pos <= |script| && (more ==> s.result.Running? && !s.handshake && s.off <= |p.file|)
      invariant more ==> h[pos] == Extend(p, sent, BeginBlock(p, s, next))
      invariant !more ==> h[|script|] == Trace(s, sent)
      decreases more, |p.file| - s.off
    {
      more, pos, s, sent, next := ServeBlock(p, h, script, pos, s, sent, next);
    }
    t := Trace(s, sent);
  }

  // ----- the loops in the system

  /** What an event lets the sender hear. */
  function Heard(sys: System, e: Event): seq<Input> {
    match e
    case Expires(io) => [Input(Timeout, io)]
    case AckArrives(io) => if sys.acks == [] then [] else [Input(Ack(sys.acks[0].content), io)]
    case ClientSends(signal) => if signal.ErrorPacket? || signal.Unexpected? then [Input(signal, WORKS)] else []
    case _ => []
  }

  /** The script a run gives the sender. */
  function ScriptOf(p: Transfer, io: Io, events: seq<Event>): seq<Input> {
    if events == [] then []
    else
      var last := |events| - 1;
      ScriptOf(p, io, events[..last]) + Heard(Run(p, io, events[..last]), events[last])
  }

  lemma MovesTrace(p: Transfer, sys: System, step: SenderStep)
    ensures Trace(SenderMoves(p, sys, step).s, SenderMoves(p, sys, step).sent) == Extend(p, sys.sent, step)
  {
  }

  lemma HeardStep(p: Transfer, io: Io, script: seq<Input>, sys: System, e: Event)
    requires RunSender(p, io, script) == Trace(sys.s, sys.sent)
    ensures RunSender(p, io, script + Heard(sys, e)) == Trace(Apply(p, sys, e).s, Apply(p, sys, e).sent)
  {
    if Heard(sys, e) == [] {
      assert script + [] == script;
    } else {
      var i := Heard(sys, e)[0];
      HeardOne(p, io, script, i);
      var step := Step(p, sys.s, i.signal, i.io);
      MovesTrace(p, sys, step);
      MovesTrace(p, if e.AckArrives? then sys.(acks := sys.acks[1..]) else sys, step);
    }
  }

  lemma HeardOne(p: Transfer, io: Io, script: seq<Input>, i: Input)
    ensures RunSender(p, io, script + [i])
         == Extend(p, RunSender(p, io, script).sent, Step(p, RunSender(p, io, script).s, i.signal, i.io))
  {
    assert (script + [i])[..|script|] == script && (script + [i])[|script|] == i;
  }

  /** In every run of the system the sender is where its loops are on what they hear, and has sent the same packets. */
  lemma {:induction false} LoopsAreSystem(p: Transfer, io: Io, events: seq<Event>)
    ensures RunSender(p, io, ScriptOf(p, io, events)) == Trace(Run(p, io, events).s, Run(p, io, events).sent)
  {
    if events == [] {
      assert [] + [Outgoing(p, Start(p, io).sender)] == [Outgoing(p, Start(p, io).sender)];
    } else {
      var last := |events| - 1;
      LoopsAreSystem(p, io, events[..last]);
      HeardStep(p, io, ScriptOf(p, io, events[..last]), Run(p, io, events[..last]), events[last]);
    }
  }

  /**
   So when the loops report "ok" the receiver has as many bytes as the file, and the file's own if every read filled its
   block.
   */
  method ServeRun(p: Transfer, io: Io, events: seq<Event>) returns (t: Trace)
    requires TransferOK(p)
    ensures t == Trace(Run(p, io, events).s, Run(p, io, events).sent)
    ensures t.s.result.Okay? ==> Run(p, io, events).r.finished && |Run(p, io, events).r.got| == |p.file|
    ensures t.s.result.Okay? && AllFilled(Run(p, io, events)) ==> Run(p, io, events).r.got == p.file
  {
    LoopsAreSystem(p, io, events);
    CompletionIsTrue(p, io, events);
    t := ServeFile(p, io, ScriptOf(p, io, events));
    assert p.(file := p.file) == p;
  }
}
