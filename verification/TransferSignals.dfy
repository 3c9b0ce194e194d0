/** The shell's interrupt controller: signals, transfers and the write deadline, in any interleaving. */
module TransferSignals {

  const INTERRUPT := 2

  /**
   When a byte was sent: with no transfer active, or in a busy period; these are counted from one idle moment to the
   next.
   */
  datatype Sent = Idle | During(period: nat)

  /** A byte in the channel; when it was sent is history, which no step looks at. */
  datatype Signal = Signal(value: nat, sent: Sent)

  datatype Event =
    | Arrives(value: nat)                 // a byte joins the channel
    | Ends                                // the channel is closed
    | Take(works: bool)                   // the loop takes one; works: the deadline can be set
    | Begin(id: nat)
    | Finish(id: nat, works: bool)
    | Disable(works: bool)
    | Suspend
    | Restore
    | Close                               // close marks the controller closed and stops the loop ...
    | LoopEnds                            // ... waits for it ...
    | CloseEnds(works: bool)              // ... and clears up

  // ----- the controller as a state machine, part by part

  /** looping says that the loop has not ended. */
  datatype Flags = Flags(closed: bool, disabled: bool, suspended: bool, looping: bool)

  /** open says that the channel is not closed, listening that the loop has not met its end. */
  datatype Channel = Channel(signals: seq<Signal>, open: bool, listening: bool)

  /**
   expired says that the connection's write deadline has passed. As history: whether every clearing of the deadline has
   worked, and of each interrupt, when its byte was sent.
   */
  datatype Alarm = Alarm(
    hasDeadline: bool, interrupted: bool, deadlineSet: bool, expired: bool, clears: bool, causes: seq<Sent>)

  /** live has the transfers that were accepted and are not finished; period, which is history, counts busy periods. */
  datatype State = State(flags: Flags, channel: Channel, alarm: Alarm, live: set<nat>, period: nat)

  function Origin(hasDeadline: bool): State {
    State(Flags(false, false, false, true), Channel([], true, true), Alarm(hasDeadline, false, false, false, true, []),
      {}, 0)
  }

  predicate Accepts(s: State) { s.flags.looping && !s.flags.closed }

  /** A transfer is accepted with none active. */
  predicate StartsPeriod(s: State, e: Event) { e.Begin? && Accepts(s) && s.live == {} }

  /** The loop takes an interrupt byte with a transfer active and nothing in force against it. */
  predicate Strikes(s: State, e: Event) {
    && e.Take? && s.flags.looping && s.channel.signals != [] && s.channel.signals[0].value == INTERRUPT
    && s.live != {} && !s.flags.closed && !s.flags.disabled && !s.flags.suspended
  }

  function FlagsAfter(f: Flags, e: Event): Flags {
    match e
    case Disable(_) => f.(disabled := f.disabled || f.looping)
    case Suspend => f.(suspended := f.suspended || f.looping)
    case Restore => f.(suspended := f.suspended && !f.looping)
    case Close => f.(closed := true)
    case LoopEnds => f.(looping := f.looping && !f.closed)
    case _ => f
  }

  function LiveAfter(s: State, e: Event): set<nat> {
    match e
    case Begin(id) => if Accepts(s) then s.live + {id} else s.live
    case Finish(id, _) => s.live - {id}
    case _ => s.live
  }

  function Joined(c: Channel, b: Signal): Channel { c.(signals := c.signals + [b]) }

  function Drained(c: Channel): Channel { Channel([], c.open, c.listening && c.open) }

  function Taken(c: Channel): Channel {
    if c.signals != [] then c.(signals := c.signals[1..]) else c.(listening := c.listening && c.open)
  }

  /** A new busy period starts with an empty channel. */
  function ChannelAfter(s: State, e: Event): Channel {
    match e
    case Arrives(v) =>
      if s.channel.open then Joined(s.channel, Signal(v, if s.live != {} then During(s.period) else Idle))
      else s.channel
    case Ends => s.channel.(open := false)
    case Take(_) => if s.flags.looping then Taken(s.channel) else s.channel
    case Begin(_) => if StartsPeriod(s, e) then Drained(s.channel) else s.channel
    case _ => s.channel
  }

  function Cleared(a: Alarm, works: bool): Alarm {
    if a.deadlineSet && a.hasDeadline then
      a.(deadlineSet := false, expired := a.expired && !works, clears := a.clears && works)
    else a
  }

  function CalledOff(a: Alarm, works: bool): Alarm { Cleared(a.(interrupted := false), works) }

  function Struck(a: Alarm, cause: Sent, works: bool): Alarm {
    if a.interrupted then a
    else
      var b := a.(interrupted := true, causes := a.causes + [cause]);
      if a.hasDeadline && works then b.(deadlineSet := true, expired := true) else b
  }

  function AlarmAfter(s: State, e: Event): Alarm {
    match e
    case Take(works) => if Strikes(s, e) then Struck(s.alarm, s.channel.signals[0].sent, works) else s.alarm
    case Finish(id, works) => if s.live == {id} then CalledOff(s.alarm, works) else s.alarm
    case Disable(works) => if s.flags.looping then CalledOff(s.alarm, works) else s.alarm
    case CloseEnds(works) => if !s.flags.looping && s.live == {} then CalledOff(s.alarm, works) else s.alarm
    case _ => s.alarm
  }

  function After(s: State, e: Event): State {
    State(FlagsAfter(s.flags, e), ChannelAfter(s, e), AlarmAfter(s, e), LiveAfter(s, e),
          if StartsPeriod(s, e) then s.period + 1 else s.period)
  }

  function Run(hasDeadline: bool, events: seq<Event>): State {
    if events == [] then Origin(hasDeadline)
    else After(Run(hasDeadline, events[..|events| - 1]), events[|events| - 1])
  }

  // ----- what every step keeps

  predicate QueueOK(c: Channel, busy: bool, period: nat) {
    && (busy ==> forall i | 0 <= i < |c.signals| :: c.signals[i].sent == During(period))
    && (!c.listening ==> !c.open && c.signals == [])
  }

  predicate CausesOK(a: Alarm, period: nat) {
    && (forall i | 0 <= i < |a.causes| :: a.causes[i].During? && a.causes[i].period <= period)
    && (a.interrupted ==> a.causes != [] && a.causes[|a.causes| - 1] == During(period))
  }

  predicate DeadlineOK(a: Alarm) {
    && (a.deadlineSet ==> a.interrupted && a.hasDeadline)
    && (a.clears ==> (a.expired <==> a.deadlineSet))
  }

  /**
   An interrupt is of an active transfer, and of a byte sent while it was active; only while it lasts may the write
   deadline have passed.
   */
  predicate StateOK(s: State) {
    && QueueOK(s.channel, s.live != {}, s.period) && CausesOK(s.alarm, s.period) && DeadlineOK(s.alarm)
    && (s.alarm.interrupted ==> s.live != {} && !s.flags.disabled)
  }

  lemma QueueAfter(s: State, e: Event)
    requires StateOK(s)
    ensures QueueOK(After(s, e).channel, After(s, e).live != {}, After(s, e).period)
  {
  }

  lemma StruckOK(a: Alarm, cause: Sent, works: bool, period: nat)
    requires CausesOK(a, period) && DeadlineOK(a) && cause == During(period)
    ensures CausesOK(Struck(a, cause, works), period) && DeadlineOK(Struck(a, cause, works))
  {
  }

  lemma CalledOffOK(a: Alarm, works: bool, period: nat)
    requires CausesOK(a, period) && DeadlineOK(a)
    ensures CausesOK(CalledOff(a, works), period) && DeadlineOK(CalledOff(a, works))
    ensures !CalledOff(a, works).interrupted
  {
  }

  lemma AlarmOK(s: State, e: Event)
    requires StateOK(s)
    ensures CausesOK(AlarmAfter(s, e), s.period) && DeadlineOK(AlarmAfter(s, e))
    ensures AlarmAfter(s, e).interrupted
            <==> (s.alarm.interrupted || Strikes(s, e)) && LiveAfter(s, e) != {} && !FlagsAfter(s.flags, e).disabled
  {
    if Strikes(s, e) {
      StruckOK(s.alarm, s.channel.signals[0].sent, e.works, s.period);
    }
    if e.Finish? || e.Disable? || e.CloseEnds? {
      CalledOffOK(s.alarm, e.works, s.period);
    }
  }

  lemma AfterOK(s: State, e: Event)
    requires StateOK(s)
    ensures StateOK(After(s, e)) == true
  {
    QueueAfter(s, e);
    AlarmOK(s, e);
  }

  lemma {:induction false} RunOK(hasDeadline: bool, events: seq<Event>)
    ensures StateOK(Run(hasDeadline, events))
  {
    if events != [] {
      RunOK(hasDeadline, events[..|events| - 1]);
      AfterOK(Run(hasDeadline, events[..|events| - 1]), events[|events| - 1]);
    }
  }

  // ----- the controller itself

  class Controller {
    const hasDeadline: bool
    var closed: bool
    var disabled: bool
    var suspended: bool
    var interrupted: bool
    var deadlineSet: bool
    var active: nat
    var looping: bool
    var signals: seq<Signal>
    var open: bool
    var listening: bool
    var expired: bool
    var live: set<nat>
    var period: nat

    ghost var clears: bool
    ghost var causes: seq<Sent>

    ghost function TheFlags(): Flags
      reads `closed, `disabled, `suspended, `looping
    {
      Flags(closed, disabled, suspended, looping)
    }

    ghost function TheChannel(): Channel
      reads `signals, `open, `listening
    {
      Channel(signals, open, listening)
    }

    ghost function TheAlarm(): Alarm
      reads `interrupted, `deadlineSet, `expired, `clears, `causes
    {
      Alarm(hasDeadline, interrupted, deadlineSet, expired, clears, causes)
    }

    /** The state the controller is in. */
    ghost function Now(): State
      reads this
    {
      State(TheFlags(), TheChannel(), TheAlarm(), live, period)
    }

    ghost predicate Valid()
      reads this
    {
      active == |live| && StateOK(Now())
    }

    constructor (hasDeadline: bool)
      ensures Valid() && Now() == Origin(hasDeadline)
    {
      this.hasDeadline := hasDeadline;
      closed, disabled, suspended, interrupted, deadlineSet := false, false, false, false, false;
      active, looping, signals, open, listening, expired := 0, true, [], true, true, false;
      live, period, clears, causes := {}, 0, true, [];
    }

    method ClearDeadline(works: bool)
      modifies `deadlineSet, `expired, `clears
      ensures TheAlarm() == Cleared(old(TheAlarm()), works)
    {
      if deadlineSet && hasDeadline {
        expired := expired && !works;
        clears := clears && works;
        deadlineSet := false;
      }
    }

    method CallOff(works: bool)
      modifies `interrupted, `deadlineSet, `expired, `clears
      ensures TheAlarm() == CalledOff(old(TheAlarm()), works)
    {
      interrupted := false;
      ClearDeadline(works);
    }

    /** A transfer ends; with the last one interrupt and deadline are cleared. */
    method FinishLocked(id: nat, works: bool)
      requires active == |live| && id in live
      modifies `live, `active, `interrupted, `deadlineSet, `expired, `clears
      ensures active == |live| && live == old(live) - {id}
      ensures TheAlarm() == if old(live) == {id} then CalledOff(old(TheAlarm()), works) else old(TheAlarm())
    {
      live := live - {id};
      active := active - 1;
      if active == 0 {
        CallOff(works);
      }
    }

    method Interrupt(b: Signal, works: bool)
      requires active == |live|
      modifies `interrupted, `deadlineSet, `expired, `causes
      ensures TheAlarm() == if b.value == INTERRUPT && live != {} && !closed && !disabled && !suspended
                            then Struck(old(TheAlarm()), b.sent, works) else old(TheAlarm())
    {
      if b.value != INTERRUPT {
        return;
      }
      if !closed && !disabled && !suspended && active > 0 && !interrupted {
        interrupted := true;
        causes := causes + [b.sent];
        if hasDeadline && works {
          expired, deadlineSet := true, true;
        }
      }
    }

    method Drain()
      modifies `signals, `listening
      ensures TheChannel() == Drained(old(TheChannel()))
    {
      while signals != []
        modifies `signals
        decreases |signals|
      {
        signals := signals[1..];
      }
      listening := listening && open;
    }

    method Admit(id: nat) returns (accepted: bool)
      requires active == |live| && id !in live && looping
      modifies `signals, `listening, `active, `live, `period
      ensures active == |live| && accepted == (id in live)
      ensures Now() == After(old(Now()), Begin(id))
    {
      accepted := !closed;
      if accepted && active == 0 {
        Drain();
        period := period + 1;
      }
      if accepted {
        active := active + 1;
        live := live + {id};
      }
    }

    /** The loop takes the first byte of the channel, or meets its end. */
    method TakeSignal(works: bool)
      requires active == |live| && looping
      modifies `signals, `listening, `interrupted, `deadlineSet, `expired, `causes
      ensures TheChannel() == Taken(old(TheChannel()))
      ensures TheAlarm() == old(AlarmAfter(Now(), Take(works)))
    {
      if signals != [] {
        var b := signals[0];
        signals := signals[1..];
        Interrupt(b, works);
      } else if !open {
        listening := false;
      }
    }

    /** The controller's steps are the state machine's, and keep what it keeps. */
    method Step(e: Event)
      requires Valid()
      modifies this
      ensures Valid() == true && Now() == After(old(Now()), e)
    {
      AfterOK(Now(), e);
      Act(e);
    }

    method Act(e: Event)
      requires active == |live|
      modifies this
      ensures active == |live| && Now() == After(old(Now()), e)
    {
      match e
      case Begin(id) =>
        if looping && id !in live {
          var _ := Admit(id);
        }
      case Finish(id, works) =>
        if id in live {
          FinishLocked(id, works);
        }
      case Arrives(_) => Receive(e);
      case Ends => Receive(e);
      case Take(_) => Receive(e);
      case _ => Switch(e);
    }

    /** What happens to the channel. */
    method Receive(e: Event)
      requires active == |live| && (e.Arrives? || e.Ends? || e.Take?)
      modifies `signals, `open, `listening, `interrupted, `deadlineSet, `expired, `causes
      ensures Now() == After(old(Now()), e)
    {
      match e
      case Arrives(v) =>
        if open {
          signals := signals + [Signal(v, if active > 0 then During(period) else Idle)];
        }
      case Ends => open := false;
      case Take(works) =>
        if looping {
          TakeSignal(works);
        }
    }

    /** What turns interrupts off and on, and what closing does. */
    method Switch(e: Event)
      requires active == |live|
      requires e.Disable? || e.Suspend? || e.Restore? || e.Close? || e.LoopEnds? || e.CloseEnds?
      modifies `closed, `disabled, `suspended, `looping, `interrupted, `deadlineSet, `expired, `clears
      ensures Now() == After(old(Now()), e)
    {
      match e
      case Disable(works) =>
        if looping {
          disabled := true;
          CallOff(works);
        }
      case Suspend => suspended := suspended || looping;
      case Restore => suspended := suspended && !looping;
      case Close => closed := true;
      case LoopEnds => looping := looping && !closed;
      case CloseEnds(works) =>
        if !looping && active == 0 {
          CallOff(works);
        }
    }
  }

  lemma RunSnoc(hasDeadline: bool, events: seq<Event>, e: Event)
    ensures Run(hasDeadline, events + [e]) == After(Run(hasDeadline, events), e)
  {
    assert (events + [e])[..|events|] == events && (events + [e])[|events|] == e;
  }

  /**
   In every interleaving the deadline has passed only while an interrupted transfer is active, and no interrupt was
   caused by a byte sent while nothing was active.
   */
  method Drive(hasDeadline: bool, events: seq<Event>) returns (c: Controller)
    ensures fresh(c) && c.Valid() && c.Now() == Run(hasDeadline, events)
    ensures c.active == 0 && c.clears ==> !c.expired && !c.interrupted
    ensures forall i | 0 <= i < |c.causes| :: c.causes[i] != Idle
  {
    c := new Controller(hasDeadline);
    for n := 0 to |events|
      invariant fresh(c) && c.Valid() && c.Now() == Run(hasDeadline, events[..n])
    {
      assert events[..n + 1] == events[..n] + [events[n]];
      RunSnoc(hasDeadline, events[..n], events[n]);
      c.Step(events[n]);
    }
    assert events[..|events|] == events;
  }
}
