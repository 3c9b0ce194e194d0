/** What the interrupt controller's state says of the events so far, with no state in between. */
module TransferHistory {
  import opened TransferSignals

  // ----- switches

  predicate Closed(events: seq<Event>) {
    exists i | 0 <= i < |events| :: events[i].Close?
  }

  predicate Open(events: seq<Event>) {
    forall i | 0 <= i < |events| :: !events[i].Ends?
  }

  /** The loop has not ended since a close. */
  predicate Looping(events: seq<Event>) {
    !exists i, j | 0 <= i < j < |events| :: events[i].Close? && events[j].LoopEnds?
  }

  /** The loop has been told to take no more interrupts. */
  predicate Disabled(events: seq<Event>) {
    exists i | 0 <= i < |events| :: events[i].Disable? && Looping(events[..i])
  }

  /** It was suspended, and not restored since. */
  predicate Suspended(events: seq<Event>) {
    exists i | 0 <= i < |events| :: events[i].Suspend? && Looping(events[..i]) && !RestoredAfter(events, i)
  }

  predicate RestoredAfter(events: seq<Event>, i: nat) {
    exists j | i < j < |events| :: events[j].Restore? && Looping(events[..j])
  }

  /** A transfer was begun before any close, and has not finished since. */
  predicate Active(events: seq<Event>, id: nat) {
    exists i | 0 <= i < |events| :: events[i] == Begin(id) && Accepts(events[..i]) && !FinishedAfter(events, i, id)
  }

  predicate Accepts(events: seq<Event>) { Looping(events) && !Closed(events) }

  predicate FinishedAfter(events: seq<Event>, i: nat, id: nat) {
    exists j | i < j < |events| :: events[j].Finish? && events[j].id == id
  }

  ghost predicate Busy(events: seq<Event>) {
    exists id :: Active(events, id)
  }

  lemma CloseLater(front: seq<Event>, e: Event)
    ensures Closed(front + [e]) <==> Closed(front) || e.Close?
    ensures Open(front + [e]) <==> Open(front) && !e.Ends?
  {
    var events := front + [e];
    assert events[|front|] == e && forall i | 0 <= i < |front| :: events[i] == front[i];
  }

  lemma LoopLater(front: seq<Event>, e: Event)
    ensures Looping(front + [e]) <==> Looping(front) && !(e.LoopEnds? && Closed(front))
  {
    var events := front + [e];
    assert events[|front|] == e && forall i | 0 <= i < |front| :: events[i] == front[i];
  }

  lemma Prefixes(front: seq<Event>, e: Event)
    ensures (front + [e])[|front|] == e && (front + [e])[..|front|] == front
    ensures forall i | 0 <= i < |front| :: (front + [e])[i] == front[i]
    ensures forall i | 0 <= i <= |front| :: (front + [e])[..i] == front[..i]
  {
  }

  lemma DisableLater(front: seq<Event>, e: Event)
    ensures Disabled(front + [e]) <==> Disabled(front) || (e.Disable? && Looping(front))
  {
    Prefixes(front, e);
  }

  lemma RestoreLater(front: seq<Event>, e: Event, i: nat)
    requires i < |front|
    ensures RestoredAfter(front + [e], i) <==> RestoredAfter(front, i) || (e.Restore? && Looping(front))
  {
    Prefixes(front, e);
  }

  lemma SuspendLater(front: seq<Event>, e: Event)
    ensures Suspended(front + [e]) <==>
              (Suspended(front) && !(e.Restore? && Looping(front))) || (e.Suspend? && Looping(front))
  {
    Prefixes(front, e);
    forall i | 0 <= i < |front|
      ensures RestoredAfter(front + [e], i) <==> RestoredAfter(front, i) || (e.Restore? && Looping(front))
    {
      RestoreLater(front, e, i);
    }
  }

  lemma ActiveLater(front: seq<Event>, e: Event, id: nat)
    ensures Active(front + [e], id) <==>
              (Active(front, id) && !(e.Finish? && e.id == id)) || (e == Begin(id) && Accepts(front))
  {
    Prefixes(front, e);
    forall i | 0 <= i < |front|
      ensures FinishedAfter(front + [e], i, id) <==> FinishedAfter(front, i, id) || (e.Finish? && e.id == id)
    {
      FinishLater(front, e, i, id);
    }
  }

  lemma FinishLater(front: seq<Event>, e: Event, i: nat, id: nat)
    requires i < |front|
    ensures FinishedAfter(front + [e], i, id) <==> FinishedAfter(front, i, id) || (e.Finish? && e.id == id)
  {
    Prefixes(front, e);
  }

  lemma {:induction false} Snoc(hasDeadline: bool, events: seq<Event>) returns (front: seq<Event>, e: Event)
    requires events != []
    ensures events == front + [e] && |front| == |events| - 1
    ensures Run(hasDeadline, events) == After(Run(hasDeadline, front), e)
  {
    front, e := events[..|events| - 1], events[|events| - 1];
  }

  // ----- the state's switches

  /** Each switch says what the events say. */
  lemma {:induction false} SwitchesAre(hasDeadline: bool, events: seq<Event>)
    ensures var s := Run(hasDeadline, events);
      && (s.flags.closed <==> Closed(events)) && (s.flags.looping <==> Looping(events))
      && (s.flags.disabled <==> Disabled(events)) && (s.flags.suspended <==> Suspended(events))
      && (s.channel.open <==> Open(events))
  {
    if events != [] {
      var front, e := Snoc(hasDeadline, events);
      SwitchesAre(hasDeadline, front);
      CloseLater(front, e);
      LoopLater(front, e);
      DisableLater(front, e);
      SuspendLater(front, e);
    }
  }

  /** The transfers that are active are those begun before any close and not finished since. */
  lemma {:induction false} LiveIs(hasDeadline: bool, events: seq<Event>, id: nat)
    ensures id in Run(hasDeadline, events).live <==> Active(events, id)
  {
    if events != [] {
      var front, e := Snoc(hasDeadline, events);
      LiveIs(hasDeadline, front, id);
      SwitchesAre(hasDeadline, front);
      ActiveLater(front, e, id);
    }
  }

  lemma BusyIs(hasDeadline: bool, events: seq<Event>)
    ensures Run(hasDeadline, events).live != {} <==> Busy(events)
  {
    var live := Run(hasDeadline, events).live;
    if live != {} {
      var id :| id in live;
      LiveIs(hasDeadline, events, id);
    }
    if Busy(events) {
      var id :| Active(events, id);
      LiveIs(hasDeadline, events, id);
    }
  }

  // ----- the channel

  /** The bytes that have joined the channel. */
  function Arrivals(events: seq<Event>): (values: seq<nat>) {
    if events == [] then []
    else
      var front, e := events[..|events| - 1], events[|events| - 1];
      Arrivals(front) + if e.Arrives? && Open(front) then [e.value] else []
  }

  /** How many have left it: one with each take, and all of them when a transfer begins while none is active. */
  ghost function Gone(events: seq<Event>): (n: nat)
    ensures n <= |Arrivals(events)|
    decreases |events|, 0
  {
    if events == [] then 0
    else
      var front, e := events[..|events| - 1], events[|events| - 1];
      if e.Begin? && Accepts(front) && !Busy(front) then |Arrivals(front)|
      else if e.Take? && TakesNext(front) then Gone(front) + 1
      else Gone(front)
  }

  /** The loop finds a byte to take. */
  ghost predicate TakesNext(events: seq<Event>)
    decreases |events|, 1
  {
    Looping(events) && Gone(events) < |Arrivals(events)|
  }

  function Values(signals: seq<Signal>): (values: seq<nat>)
    ensures |values| == |signals|
  {
    seq(|signals|, i requires 0 <= i < |signals| => signals[i].value)
  }

  lemma ChannelValues(s: State, e: Event)
    ensures Values(ChannelAfter(s, e).signals) ==
              if e.Arrives? && s.channel.open then Values(s.channel.signals) + [e.value]
              else if StartsPeriod(s, e) then []
              else if e.Take? && s.flags.looping && s.channel.signals != [] then Values(s.channel.signals)[1..]
              else Values(s.channel.signals)
  {
  }

  /** The channel holds the bytes that have arrived and not left, in order. */
  lemma {:induction false} ChannelIs(hasDeadline: bool, events: seq<Event>)
    ensures Values(Run(hasDeadline, events).channel.signals) == Arrivals(events)[Gone(events)..]
  {
    if events != [] {
      var front, e := Snoc(hasDeadline, events);
      ChannelIs(hasDeadline, front);
      SwitchesAre(hasDeadline, front);
      BusyIs(hasDeadline, front);
      ChannelValues(Run(hasDeadline, front), e);
    }
  }

  // ----- interrupts

  /** The event takes an interrupt byte with a transfer active and nothing in force against it. */
  ghost predicate StrikesAt(events: seq<Event>, i: nat)
    requires i < |events|
  {
    var before := events[..i];
    && events[i].Take? && TakesNext(before) && Arrivals(before)[Gone(before)] == INTERRUPT
    && Busy(before) && !Closed(before) && !Disabled(before) && !Suspended(before)
  }

  /** From event i on some transfer has been active all along, and nothing has disabled the controller. */
  ghost predicate Lasts(events: seq<Event>, i: nat) {
    !Disabled(events) && forall j | i < j <= |events| :: Busy(events[..j])
  }

  /** The interrupt of a busy period. */
  ghost predicate InForce(events: seq<Event>) {
    exists i | 0 <= i < |events| :: StrikesAt(events, i) && Lasts(events, i)
  }

  lemma StrikesIs(hasDeadline: bool, front: seq<Event>, e: Event)
    ensures StrikesAt(front + [e], |front|) <==> Strikes(Run(hasDeadline, front), e)
  {
    Prefixes(front, e);
    SwitchesAre(hasDeadline, front);
    BusyIs(hasDeadline, front);
    ChannelIs(hasDeadline, front);
    var signals := Run(hasDeadline, front).channel.signals;
    assert signals != [] ==> Values(signals)[0] == signals[0].value;
  }

  lemma LastsLater(front: seq<Event>, e: Event, i: nat)
    requires i < |front|
    ensures StrikesAt(front + [e], i) <==> StrikesAt(front, i)
    ensures Lasts(front + [e], i) <==> Lasts(front, i) && Busy(front + [e]) && !Disabled(front + [e])
  {
    var events := front + [e];
    Prefixes(front, e);
    DisableLater(front, e);
    assert events[..|events|] == events;
  }

  lemma InForceLater(front: seq<Event>, e: Event)
    ensures InForce(front + [e]) <==>
              (InForce(front) || StrikesAt(front + [e], |front|)) && Busy(front + [e]) && !Disabled(front + [e])
  {
    var events := front + [e];
    forall i | 0 <= i < |front|
      ensures StrikesAt(events, i) <==> StrikesAt(front, i)
      ensures Lasts(events, i) <==> Lasts(front, i) && Busy(events) && !Disabled(events)
    {
      LastsLater(front, e, i);
    }
    assert events[..|events|] == events;
  }

  /**
   A transfer is interrupted if and only if an interrupt byte was taken while a transfer was active and nothing was in
   force against it, and since then some transfer has been active all along and nothing has disabled the controller.
   */
  lemma {:induction false} InterruptedIs(hasDeadline: bool, events: seq<Event>)
    ensures Run(hasDeadline, events).alarm.interrupted <==> InForce(events)
  {
    if events != [] {
      var front, e := Snoc(hasDeadline, events);
      InterruptedIs(hasDeadline, front);
      RunOK(hasDeadline, front);
      AlarmOK(Run(hasDeadline, front), e);
      StrikesIs(hasDeadline, front, e);
      InForceLater(front, e);
      BusyIs(hasDeadline, events);
      SwitchesAre(hasDeadline, events);
    }
  }

  // ----- the write deadline

  /** The event is the interrupt of a busy period that had none, and the deadline could be set. */
  ghost predicate SetsDeadline(events: seq<Event>, i: nat)
    requires i < |events|
  {
    StrikesAt(events, i) && !InForce(events[..i]) && events[i].works
  }

  ghost predicate DeadlineInForce(events: seq<Event>) {
    exists i | 0 <= i < |events| :: SetsDeadline(events, i) && Lasts(events, i)
  }

  lemma DeadlineStep(s: State, e: Event)
    requires StateOK(s)
    ensures var t := After(s, e);
      && t.alarm.hasDeadline == s.alarm.hasDeadline
      && (t.alarm.deadlineSet <==>
            && (s.alarm.deadlineSet || (Strikes(s, e) && !s.alarm.interrupted && s.alarm.hasDeadline && e.works))
            && t.alarm.interrupted)
  {
    AlarmOK(s, e);
  }

  lemma DeadlineLater(front: seq<Event>, e: Event)
    ensures DeadlineInForce(front + [e]) <==>
              && (DeadlineInForce(front) || SetsDeadline(front + [e], |front|))
              && Busy(front + [e]) && !Disabled(front + [e])
  {
    var events := front + [e];
    Prefixes(front, e);
    forall i | 0 <= i < |front|
      ensures SetsDeadline(events, i) <==> SetsDeadline(front, i)
      ensures Lasts(events, i) <==> Lasts(front, i) && Busy(events) && !Disabled(events)
    {
      LastsLater(front, e, i);
    }
    assert events[..|events|] == events;
  }

  /** The deadline is set by the interrupt of a busy period, for as long as that is in force, and by nothing else. */
  lemma {:induction false} DeadlineIs(hasDeadline: bool, events: seq<Event>)
    ensures var a := Run(hasDeadline, events).alarm;
      a.hasDeadline == hasDeadline && (a.deadlineSet <==> hasDeadline && DeadlineInForce(events))
  {
    if events != [] {
      var front, e := Snoc(hasDeadline, events);
      DeadlineIs(hasDeadline, front);
      RunOK(hasDeadline, front);
      Prefixes(front, e);
      DeadlineStep(Run(hasDeadline, front), e);
      StrikesIs(hasDeadline, front, e);
      DeadlineLater(front, e);
      InterruptedIs(hasDeadline, front);
      InterruptedIs(hasDeadline, events);
      BusyIs(hasDeadline, events);
      SwitchesAre(hasDeadline, events);
      RunOK(hasDeadline, events);
    }
  }

  // ----- an interrupt byte stops a transfer

  lemma {:induction false} ArrivalsGrow(events: seq<Event>, i: nat, j: nat)
    requires i <= j <= |events|
    ensures Arrivals(events[..i]) <= Arrivals(events[..j])
    decreases j
  {
    if i < j {
      ArrivalsGrow(events, i, j - 1);
      assert events[..j][..j - 1] == events[..j - 1];
    }
  }

  lemma ArrivalAt(events: seq<Event>, i: nat, j: nat)
    requires i < j <= |events| && events[i].Arrives? && Open(events[..i])
    ensures var n := |Arrivals(events[..i])|;
      n < |Arrivals(events[..j])| && Arrivals(events[..j])[n] == events[i].value
  {
    assert events[..i + 1][..i] == events[..i] && events[..i + 1][i] == events[i];
    assert Arrivals(events[..i + 1]) == Arrivals(events[..i]) + [events[i].value];
    ArrivalsGrow(events, i + 1, j);
  }

  lemma DisabledStays(events: seq<Event>, j: nat)
    requires j <= |events| && Disabled(events[..j])
    ensures Disabled(events)
  {
    var d :| 0 <= d < j && events[..j][d].Disable? && Looping(events[..j][..d]);
    assert events[..j][..d] == events[..d] && events[d].Disable?;
  }

  /**
   An interrupt byte that arrives and is taken while some transfer is active, with nothing in force against it,
   interrupts until that period's last transfer finishes or a disable; and if it is the period's first and the deadline
   can be set, a blocked write returns.
   */
  lemma TransferStops(hasDeadline: bool, events: seq<Event>, i: nat, j: nat)
    requires i < j < |events| && events[i] == Arrives(INTERRUPT) && Open(events[..i])
    requires events[j].Take? && Looping(events[..j]) && Gone(events[..j]) == |Arrivals(events[..i])|
    requires !Closed(events[..j]) && !Suspended(events[..j]) && !Disabled(events)
    requires forall k | j <= k <= |events| :: Busy(events[..k])
    ensures Run(hasDeadline, events).alarm.interrupted
    ensures var a := Run(hasDeadline, events).alarm;
      hasDeadline && events[j].works && !InForce(events[..j]) ==> a.deadlineSet && (a.clears ==> a.expired)
  {
    ArrivalAt(events, i, j);
    if Disabled(events[..j]) {
      DisabledStays(events, j);
    }
    assert StrikesAt(events, j) && Lasts(events, j);
    InterruptedIs(hasDeadline, events);
    DeadlineIs(hasDeadline, events);
    RunOK(hasDeadline, events);
    assert SetsDeadline(events, j) <==> !InForce(events[..j]) && events[j].works;
  }
}
