/** Runs of the lock: any interleaving of the threads' critical sections, as a
    sequence of atomic steps on the bookkeeping, together with how many threads
    of each class are blocked in their wait loop. Mutual exclusion,
    non-negative counters and well-formed queues hold in every state such a run
    reaches, and every blocked thread finds its queue non-empty when it
    re-checks. A woken thread may re-check at any time, which also covers
    spurious wake-ups. */
module Traces {
  import opened Monitor

  datatype Option<T> = None | Some(value: T)

  /** The bookkeeping, and the number of readers and writers that pushed a
      handle in `read` / `write` and have not been admitted yet. */
  datatype Config = Config(g: State, blockedReaders: nat, blockedWriters: nat)

  /** A new lock with no thread inside it. */
  const Start: Config := Config(Idle, 0, 0)

  /** One critical section of some thread. */
  datatype Event =
    | Read(t: Ticket)     // start of `read`: push a new handle, check `read_wait`, enter if false
    | Write(t: Ticket)    // start of `write`: push a new handle, check `write_wait`, enter if false
    | WakeRead            // a blocked reader re-checks `read_wait`, and enters if false
    | WakeWrite           // a blocked writer re-checks `write_wait`, and enters if false
    | DropRead            // `Drop` of a read guard
    | DropWrite           // `Drop` of a write guard

  /** Whether the event can happen: a request brings a newly allocated handle,
      and only a blocked thread re-checks. */
  predicate Enabled(c: Config, e: Event) {
    match e
    case Read(t) => IsFresh(c.g, t)
    case Write(t) => IsFresh(c.g, t)
    case WakeRead => c.blockedReaders > 0
    case WakeWrite => c.blockedWriters > 0
    case DropRead => true
    case DropWrite => true
  }

  /** Each queue holds exactly one entry per blocked thread of its class (by
      count: removal by position means they need not be that thread's own). */
  predicate Counted(c: Config) {
    |c.g.readerWait| == c.blockedReaders && |c.g.writerWait| == c.blockedWriters
  }

  /** The effect of one event. */
  function Step(pref: Preference, order: Order, c: Config, e: Event): (d: Config)
    requires Enabled(c, e) && Counted(c)
    ensures Counted(d)
  {
    match e
    case Read(t) =>
      var g := RegisterReader(c.g, t);
      if ReadWait(pref, g) then Config(g, c.blockedReaders + 1, c.blockedWriters)
      else Config(AdmitReader(order, g), c.blockedReaders, c.blockedWriters)
    case Write(t) =>
      var g := RegisterWriter(c.g, t);
      if WriteWait(pref, g) then Config(g, c.blockedReaders, c.blockedWriters + 1)
      else Config(AdmitWriter(order, g), c.blockedReaders, c.blockedWriters)
    case WakeRead =>
      if ReadWait(pref, c.g) then c
      else Config(AdmitReader(order, c.g), c.blockedReaders - 1, c.blockedWriters)
    case WakeWrite =>
      if WriteWait(pref, c.g) then c
      else Config(AdmitWriter(order, c.g), c.blockedReaders, c.blockedWriters - 1)
    case DropRead => c.(g := ReleaseReader(c.g))
    case DropWrite => c.(g := ReleaseWriter(c.g))
  }

  /** The configuration after the events of trace, or None if one of them
      cannot happen. */
  function Run(pref: Preference, order: Order, c: Config, trace: seq<Event>): (r: Option<Config>)
    requires Counted(c)
    ensures r.Some? ==> Counted(r.value)
    decreases |trace|
  {
    if trace == [] then Some(c)
    else if !Enabled(c, trace[0]) then None
    else Run(pref, order, Step(pref, order, c, trace[0]), trace[1..])
  }

  lemma StepKeepsInvariant(pref: Preference, order: Order, c: Config, e: Event)
    requires Invariant(c.g) && Counted(c) && Enabled(c, e)
    ensures Invariant(Step(pref, order, c, e).g)
  {
    match e
    case Read(t) =>
      RegisterKeepsInvariant(c.g, t);
      if !ReadWait(pref, RegisterReader(c.g, t)) {
        AdmitReaderKeepsInvariant(pref, order, RegisterReader(c.g, t));
      }
    case Write(t) =>
      RegisterKeepsInvariant(c.g, t);
      if !WriteWait(pref, RegisterWriter(c.g, t)) {
        AdmitWriterKeepsInvariant(pref, order, RegisterWriter(c.g, t));
      }
    case WakeRead =>
      if !ReadWait(pref, c.g) { AdmitReaderKeepsInvariant(pref, order, c.g); }
    case WakeWrite =>
      if !WriteWait(pref, c.g) { AdmitWriterKeepsInvariant(pref, order, c.g); }
    case DropRead => ReleaseKeepsInvariant(c.g);
    case DropWrite => ReleaseKeepsInvariant(c.g);
  }

  lemma {:induction false} RunKeepsInvariant(pref: Preference, order: Order, c: Config, trace: seq<Event>)
    requires Invariant(c.g) && Counted(c) && Run(pref, order, c, trace).Some?
    ensures Invariant(Run(pref, order, c, trace).value.g)
    decreases |trace|
  {
    if trace != [] {
      StepKeepsInvariant(pref, order, c, trace[0]);
      RunKeepsInvariant(pref, order, Step(pref, order, c, trace[0]), trace[1..]);
    }
  }

  /** Every state reachable from a new lock has at most one writer, never
      readers beside a writer, no negative counter and duplicate-free queues;
      and a blocked thread that re-checks always finds its own queue non-empty,
      so the pop that follows a successful re-check has an entry to remove. */
  lemma {:induction false} ReachableStatesAreSafe(pref: Preference, order: Order, trace: seq<Event>)
    requires Run(pref, order, Start, trace).Some?
    ensures Invariant(Run(pref, order, Start, trace).value.g)
    ensures Run(pref, order, Start, trace).value.g.writerActive in {0, 1}
    ensures var c := Run(pref, order, Start, trace).value;
            (c.blockedReaders > 0 ==> |c.g.readerWait| > 0) &&
            (c.blockedWriters > 0 ==> |c.g.writerWait| > 0)
  {
    IdleSatisfiesInvariant();
    RunKeepsInvariant(pref, order, Start, trace);
  }

  /** Removal by position can lose the handle of a thread that is still waiting.
      Writer preference, Fifo: writer 1 enters a new lock and writer 2 blocks
      with handle 2 queued. Writer 1 drops its guard and wake-selection signals
      position 0, which holds handle 2. Before thread 2 re-checks, writer 3
      arrives, finds the lock free and enters at once, but it pops position 0,
      that is handle 2, leaving its own handle 3 queued. Thread 2 then re-checks
      and must wait again, while no queue holds its handle; the next
      wake-selection signals handle 3, whose thread is already inside, so
      thread 2 is never signalled. */
  lemma PositionalPopLosesWaitingHandle()
    ensures var c := Run(Writer, Fifo, Start, [Write(1), Write(2), DropWrite]);
            c == Some(Config(State([], [2], 0, 0), 0, 1)) &&
            Wakeups(Writer, Fifo, c.value.g) == [WakeWriter(0)] && c.value.g.writerWait[0] == 2
    ensures var c := Run(Writer, Fifo, Start, [Write(1), Write(2), DropWrite, Write(3), WakeWrite]);
            c == Some(Config(State([], [3], 0, 1), 0, 1)) &&
            2 !in c.value.g.writerWait && c.value.blockedWriters == 1 &&
            Wakeups(Writer, Fifo, ReleaseWriter(c.value.g)) == [WakeWriter(0)] &&
            ReleaseWriter(c.value.g).writerWait[0] == 3
  {
    var c1 := Config(State([], [], 0, 1), 0, 0);
    var c2 := Config(State([], [2], 0, 1), 0, 1);
    var c3 := Config(State([], [2], 0, 0), 0, 1);
    var c4 := Config(State([], [3], 0, 1), 0, 1);
    assert Step(Writer, Fifo, Start, Write(1)) == c1;
    assert Step(Writer, Fifo, c1, Write(2)) == c2;
    assert Step(Writer, Fifo, c2, DropWrite) == c3;
    assert Step(Writer, Fifo, c3, Write(3)) == c4;
    assert Step(Writer, Fifo, c4, WakeWrite) == c4;
  }

  /** Readers lose their handle the same way. Writer preference, Fifo: writer 1
      enters and reader 10 blocks. Writer 1 drops its guard and the batch wake
      signals position 0, handle 10. Before thread 10 re-checks, reader 11
      arrives, finds no writer active or queued and enters at once, popping
      position 0, that is handle 10. Writer 2 then arrives and blocks behind the
      active reader, so thread 10's re-check fails; it stays blocked while the
      reader queue holds only the stale handle 11. */
  lemma PositionalPopLosesWaitingReader()
    ensures var c := Run(Writer, Fifo, Start, [Write(1), Read(10), DropWrite]);
            c == Some(Config(State([10], [], 0, 0), 1, 0)) &&
            Wakeups(Writer, Fifo, c.value.g) == [WakeReader(0)] && c.value.g.readerWait[0] == 10
    ensures var c := Run(Writer, Fifo, Start, [Write(1), Read(10), DropWrite, Read(11), Write(2), WakeRead]);
            c == Some(Config(State([11], [2], 1, 0), 1, 1)) &&
            10 !in c.value.g.readerWait && c.value.blockedReaders == 1
  {
    var c1 := Config(State([], [], 0, 1), 0, 0);
    var c2 := Config(State([10], [], 0, 1), 1, 0);
    var c3 := Config(State([10], [], 0, 0), 1, 0);
    var c4 := Config(State([11], [], 1, 0), 1, 0);
    var c5 := Config(State([11], [2], 1, 0), 1, 1);
    assert Step(Writer, Fifo, Start, Write(1)) == c1;
    assert Step(Writer, Fifo, c1, Read(10)) == c2;
    assert Step(Writer, Fifo, c2, DropWrite) == c3;
    assert Step(Writer, Fifo, c3, Read(11)) == c4;
    assert Step(Writer, Fifo, c4, Write(2)) == c5;
    assert Step(Writer, Fifo, c5, WakeRead) == c5;
  }
}
