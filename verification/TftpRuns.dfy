/** Runs in lock step: one in which a read falls short, and why the channels must keep order. */
module TftpRuns {
  import opened Bits
  import opened Tftp
  import opened TftpSafety

  // ----- runs in lock step

  /** The sender has just sent block k and the receiver waits for it; nothing else is under way. */
  ghost predicate InStep(p: Transfer, sys: System, k: nat) {
    && Inv(p, sys) && sys.s.result.Running? && sys.sending == k > 0 && sys.accepted == k - 1 && |sys.blocks| == k
    && sys.data == [Message(PacketOf(sys.blocks, k), k)] && sys.acks == []
  }

  lemma InStepDelivers(p: Transfer, sys: System, k: nat)
    requires TransferOK(p) && InStep(p, sys, k)
    ensures var a := Apply(p, sys, DataArrives);
      && Inv(p, a) && a.s == sys.s && a.sending == a.accepted == k && a.blocks == sys.blocks
      && a.data == [] && a.acks == [Message(k % WRAP, k)]
  {
    DataArrivesHolds(p, sys);
    Delivery(p, sys);
    assert sys.acks + [Message(k % WRAP, k)] == [Message(k % WRAP, k)];
  }

  /** A block delivered and acknowledged is followed by the next, with whatever its read brings. */
  lemma InStepAdvances(p: Transfer, sys: System, k: nat, io: Io)
    requires TransferOK(p) && InStep(p, sys, k) && !IsFinal(p, Offset(p, k)) && io.sends && !io.read.Fails?
    ensures var a := Apply(p, Apply(p, sys, DataArrives), AckArrives(io));
      && InStep(p, a, k + 1) && a.blocks[..k] == sys.blocks &&
          a.blocks[k].brought == Brought(p, Offset(p, k + 1), io.read)
  {
    InStepDelivers(p, sys, k);
    var b := Apply(p, sys, DataArrives);
    AckHolds(p, b, io);
    var a := Apply(p, b, AckArrives(io));
    assert Offset(p, k + 1) == Offset(p, k) + p.blockSize;
    assert b.acks[1..] == [];
    NeighboursDiffer(k);
    assert a.data == [] + [Message(PacketOf(a.blocks, k + 1), k + 1)];
  }

  /** The final block delivered and acknowledged ends the transfer. */
  lemma InStepEnds(p: Transfer, sys: System, k: nat, io: Io)
    requires TransferOK(p) && InStep(p, sys, k) && IsFinal(p, Offset(p, k))
    ensures var a := Apply(p, Apply(p, sys, DataArrives), AckArrives(io));
      Inv(p, a) && a.s.result.Okay? && a.accepted == k && a.blocks == sys.blocks
  {
    InStepDelivers(p, sys, k);
    AckHolds(p, Apply(p, sys, DataArrives), io);
  }

  lemma InStepStarts(p: Transfer)
    requires TransferOK(p) && !p.options
    ensures InStep(p, Initial(p, WORKS), 1) && Initial(p, WORKS).blocks[0].brought == Want(p, 0)
  {
    InitialHolds(p, WORKS);
    var sys := Initial(p, WORKS);
    assert sys.data == [] + [Message(PacketOf(sys.blocks, 1), 1)];
  }

  lemma RunTwo(p: Transfer, io: Io, events: seq<Event>, d: Event, e: Event)
    ensures Run(p, io, events + [d, e]) == Apply(p, Apply(p, Run(p, io, events), d), e)
  {
    assert (events + [d, e])[..|events| + 1] == events + [d];
    assert (events + [d])[..|events|] == events;
  }

  /**
   A run whose second read finds the end of the file at once: "ok", over a byte of the first block in place of the last.
   */
  lemma StaleBytes(a: byte, b: byte, c: byte, retries: nat, finalRetries: nat)
    ensures var p := Transfer([a, b, c], 2, retries, finalRetries, false);
      var sys := Run(p, WORKS, [DataArrives, AckArrives(Io(Cut(0), true)), DataArrives, AckArrives(WORKS)]);
      sys.s.result.Okay? && sys.r.got == [a, b, a]
  {
    var p := Transfer([a, b, c], 2, retries, finalRetries, false);
    var cut := AckArrives(Io(Cut(0), true));
    InStepStarts(p);
    RunTwo(p, WORKS, [], DataArrives, cut);
    RunTwo(p, WORKS, [DataArrives, cut], DataArrives, AckArrives(WORKS));
    assert [] + [DataArrives, cut] == [DataArrives, cut];
    assert [DataArrives, cut] + [DataArrives, AckArrives(WORKS)] == [DataArrives, cut, DataArrives, AckArrives(WORKS)];
    InStepAdvances(p, Initial(p, WORKS), 1, Io(Cut(0), true));
    var sys := Run(p, WORKS, [DataArrives, cut]);
    InStepEnds(p, sys, 2, WORKS);
    StaleCargo(p, sys.blocks, a, b, c);
  }

  lemma StaleCargo(p: Transfer, blocks: seq<Block>, a: byte, b: byte, c: byte)
    requires p.file == [a, b, c] && p.blockSize == 2 && BlocksHold(p, blocks) && |blocks| == 2
    requires blocks[0].brought == 2 && blocks[1].brought == 0
    ensures Joined(blocks, 2) == [a, b, a]
  {
    assert BlockHolds(p, blocks, 1) && BlockHolds(p, blocks, 2);
    assert blocks[0].cargo == [a, b] && blocks[1].cargo == [a];
    assert Joined(blocks, 1) == [] + blocks[0].cargo;
  }

  // ----- why order is needed

  /** Block k is out, the receiver waits for it, and nothing else is under way. */
  predicate Poised(p: Transfer, sys: System, k: nat) {
    && sys.s.result.Running? && !sys.s.handshake && sys.s.block == k % WRAP && sys.s.off == Offset(p, k)
    && sys.r.settled && sys.r.next == k % WRAP && !sys.r.finished
    && |sys.data| == 1 && sys.data[0].index == k && sys.data[0].content.Data?
    && sys.data[0].content.block == k % WRAP && |sys.data[0].content.payload| == Want(p, Offset(p, k))
    && sys.acks == [] && sys.sending == k
  }

  lemma PoisedStarts(p: Transfer)
    requires TransferOK(p) && !p.options
    ensures Poised(p, Initial(p, WORKS), 1)
  {
  }

  lemma PoisedDelivers(p: Transfer, sys: System, k: nat)
    requires TransferOK(p) && Poised(p, sys, k)
    ensures var a := Apply(p, sys, DataArrives);
      && a.s == sys.s && a.sending == k && a.data == [] && a.acks == [Message(k % WRAP, k)]
      && a.r.settled && a.r.next == (k + 1) % WRAP && (a.r.finished <==> IsFinal(p, Offset(p, k)))
  {
    NeighboursDiffer(k);
    assert Apply(p, sys, DataArrives).acks == [Message(k % WRAP, k)];
  }

  lemma PoisedAdvances(p: Transfer, sys: System, k: nat)
    requires TransferOK(p) && k > 0 && Poised(p, sys, k) && Offset(p, k + 1) <= |p.file|
    ensures Poised(p, Apply(p, Apply(p, sys, DataArrives), AckArrives(WORKS)), k + 1)
  {
    PoisedDelivers(p, sys, k);
    NotYetFinal(p, k);
    NeighboursDiffer(k);
    var a := Apply(p, sys, DataArrives);
    assert a.acks[1..] == [] && a.data == [];
  }

  lemma NotYetFinal(p: Transfer, k: nat)
    requires TransferOK(p) && k > 0 && Offset(p, k + 1) <= |p.file|
    ensures !IsFinal(p, Offset(p, k)) && Offset(p, k) <= |p.file| && Offset(p, k + 1) == Offset(p, k) + p.blockSize
  {
  }

  /** n blocks delivered and acknowledged, one after the other. */
  function Steady(n: nat): seq<Event> {
    if n == 0 then [] else Steady(n - 1) + [DataArrives, AckArrives(WORKS)]
  }

  ghost predicate SteadyPoised(p: Transfer, n: nat) {
    Poised(p, Run(p, WORKS, Steady(n)), n + 1)
  }

  lemma SteadyMore(p: Transfer, n: nat)
    requires TransferOK(p) && n > 0 && Offset(p, n + 1) <= |p.file| && SteadyPoised(p, n - 1) == true
    ensures SteadyPoised(p, n) == true
  {
    SteadyStep(p, Steady(n - 1), n);
  }

  lemma {:induction false} SteadyRun(p: Transfer, n: nat)
    requires TransferOK(p) && !p.options && Offset(p, n + 1) <= |p.file|
    ensures SteadyPoised(p, n) == true
  {
    if n == 0 {
      PoisedStarts(p);
    } else {
      NotYetFinal(p, n);
      SteadyRun(p, n - 1);
      SteadyMore(p, n);
    }
  }

  lemma SteadyStep(p: Transfer, events: seq<Event>, k: nat)
    requires TransferOK(p) && k > 0 && Poised(p, Run(p, WORKS, events), k) && Offset(p, k + 1) <= |p.file|
    ensures Poised(p, Run(p, WORKS, events + [DataArrives, AckArrives(WORKS)]), k + 1)
  {
    RunTwo(p, WORKS, events, DataArrives, AckArrives(WORKS));
    PoisedAdvances(p, Run(p, WORKS, events), k);
  }

  /** A run in lock step acknowledges every block it comes to. */
  lemma SteadyAcks(p: Transfer, k: nat)
    requires TransferOK(p) && !p.options && k > 0 && Offset(p, k) <= |p.file|
    ensures Apply(p, Run(p, WORKS, Steady(k - 1)), DataArrives).acks == [Message(k % WRAP, k)]
  {
    SteadyRun(p, k - 1);
    PoisedDelivers(p, Run(p, WORKS, Steady(k - 1)), k);
  }

  /** Should this acknowledgement come first, the transfer would end as "ok" before its last block has arrived. */
  predicate EndsEarly(p: Transfer, sys: System, ack: Message<nat>, io: Io) {
    var after := Apply(p, sys.(acks := [ack] + sys.acks), AckArrives(io));
    after.s.result.Okay? && !after.r.finished
  }

  lemma StaleEnds(p: Transfer, sys: System, k: nat, stale: Message<nat>, io: Io)
    requires Poised(p, sys, k) == true && IsFinal(p, Offset(p, k)) && stale.content == k % WRAP
    ensures EndsEarly(p, sys, stale, io) == true
  {
  }

  lemma WrapsAround(k: nat)
    requires k >= WRAP
    ensures (k - WRAP) % WRAP == k % WRAP
  {
  }

  /**
   Were order not kept: in a run in lock step to a final block k past the first 65536, the acknowledgement of block
   k - 65536, which that run has sent, would end the transfer with the last block missing.
   */
  lemma OrderIsNeeded(p: Transfer, k: nat, io: Io)
    requires TransferOK(p) && !p.options && k > WRAP && Offset(p, k) <= |p.file| && IsFinal(p, Offset(p, k))
    ensures EndsEarly(p, Run(p, WORKS, Steady(k - 1)), Message((k - WRAP) % WRAP, k - WRAP), io) == true
  {
    WrapsAround(k);
    var sys := SteadyEnd(p, k);
    StaleEnds(p, sys, k, Message((k - WRAP) % WRAP, k - WRAP), io);
  }

  lemma SteadyEnd(p: Transfer, k: nat) returns (sys: System)
    requires TransferOK(p) && !p.options && k > 0 && Offset(p, k) <= |p.file|
    ensures sys == Run(p, WORKS, Steady(k - 1)) && Poised(p, sys, k) == true
  {
    SteadyRun(p, k - 1);
    sys := Run(p, WORKS, Steady(k - 1));
  }

  // ----- and a run that ends well

  predicate BlocksFilled(blocks: seq<Block>) {
    forall j | 0 <= j < |blocks| :: blocks[j].brought == |blocks[j].cargo|
  }

  lemma FilledOn(before: seq<Block>, after: seq<Block>, k: nat)
    requires BlocksFilled(before) && |before| == k && |after| == k + 1 && after[..k] == before
    requires after[k].brought == |after[k].cargo|
    ensures BlocksFilled(after)
  {
    forall j | 0 <= j < k ensures after[j] == before[j] {
      assert after[..k][j] == before[j];
    }
  }

  lemma LastFilled(p: Transfer, sys: System, k: nat)
    requires InStep(p, sys, k) && sys.blocks[k - 1].brought == Want(p, Offset(p, k))
    ensures sys.blocks[k - 1].brought == |sys.blocks[k - 1].cargo|
  {
    assert BlockHolds(p, sys.blocks, k);
  }

  lemma FilledAdvances(p: Transfer, sys: System, k: nat)
    requires TransferOK(p) && InStep(p, sys, k) && !IsFinal(p, Offset(p, k)) && BlocksFilled(sys.blocks)
    ensures var a := Apply(p, Apply(p, sys, DataArrives), AckArrives(WORKS));
      InStep(p, a, k + 1) == true && BlocksFilled(a.blocks) == true
  {
    var a := Apply(p, Apply(p, sys, DataArrives), AckArrives(WORKS));
    InStepAdvances(p, sys, k, WORKS);
    LastFilled(p, a, k + 1);
    FilledOn(sys.blocks, a.blocks, k);
  }

  /** In lock step so far, and every block as its read filled it. */
  ghost predicate FilledSo(p: Transfer, events: seq<Event>, k: nat) {
    InStep(p, Run(p, WORKS, events), k) && BlocksFilled(Run(p, WORKS, events).blocks)
  }

  lemma FilledStart(p: Transfer)
    requires TransferOK(p) && !p.options
    ensures FilledSo(p, [], 1)
  {
    InStepStarts(p);
    LastFilled(p, Initial(p, WORKS), 1);
  }

  lemma FilledStep(p: Transfer, events: seq<Event>, k: nat)
    requires TransferOK(p) && FilledSo(p, events, k) && !IsFinal(p, Offset(p, k))
    ensures FilledSo(p, events + [DataArrives, AckArrives(WORKS)], k + 1)
  {
    RunTwo(p, WORKS, events, DataArrives, AckArrives(WORKS));
    FilledAdvances(p, Run(p, WORKS, events), k);
  }

  ghost predicate SteadySo(p: Transfer, n: nat) {
    FilledSo(p, Steady(n), n + 1)
  }

  lemma SteadySoMore(p: Transfer, n: nat)
    requires TransferOK(p) && n > 0 && !IsFinal(p, Offset(p, n)) && SteadySo(p, n - 1) == true
    ensures SteadySo(p, n) == true
  {
    FilledStep(p, Steady(n - 1), n);
  }

  lemma {:induction false} SteadyFilled(p: Transfer, n: nat)
    requires TransferOK(p) && !p.options && Offset(p, n + 1) <= |p.file|
    ensures SteadySo(p, n) == true
  {
    if n == 0 {
      FilledStart(p);
    } else {
      NotYetFinal(p, n);
      SteadyFilled(p, n - 1);
      SteadySoMore(p, n);
    }
  }

  lemma FilledEnds(p: Transfer, sys: System, k: nat)
    requires TransferOK(p) && InStep(p, sys, k) && IsFinal(p, Offset(p, k)) && BlocksFilled(sys.blocks)
    ensures var a := Apply(p, Apply(p, sys, DataArrives), AckArrives(WORKS));
      a.s.result.Okay? && a.r.finished && a.r.got == p.file
  {
    InStepEnds(p, sys, k, WORKS);
    var a := Apply(p, Apply(p, sys, DataArrives), AckArrives(WORKS));
    CountsKept(p, a);
    PrefixKept(p, a);
  }

  ghost predicate Completes(p: Transfer, events: seq<Event>) {
    var sys := Run(p, WORKS, events);
    sys.s.result.Okay? && sys.r.finished && sys.r.got == p.file
  }

  lemma LastStep(p: Transfer, events: seq<Event>, k: nat)
    requires TransferOK(p) && FilledSo(p, events, k) && IsFinal(p, Offset(p, k))
    ensures Completes(p, events + [DataArrives, AckArrives(WORKS)])
  {
    RunTwo(p, WORKS, events, DataArrives, AckArrives(WORKS));
    FilledEnds(p, Run(p, WORKS, events), k);
  }

  /** After k blocks delivered and acknowledged the sender says "ok", and the receiver has the file. */
  ghost predicate DoneAfter(p: Transfer, k: nat) {
    Completes(p, Steady(k))
  }

  lemma SteadyLast(p: Transfer, n: nat)
    requires TransferOK(p) && IsFinal(p, Offset(p, n + 1)) && SteadySo(p, n) == true
    ensures DoneAfter(p, n + 1) == true
  {
    LastStep(p, Steady(n), n + 1);
  }

  /** So does a run in lock step to the last block, n + 1, of any file. */
  lemma SteadyCompletes(p: Transfer, n: nat)
    requires TransferOK(p) && !p.options && Offset(p, n + 1) <= |p.file| && IsFinal(p, Offset(p, n + 1))
    ensures DoneAfter(p, n + 1) == true
  {
    SteadyFilled(p, n);
    SteadyLast(p, n);
  }
}
