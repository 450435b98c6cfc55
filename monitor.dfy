/** The bookkeeping of the reader-writer lock, as values.
    Everything the lock records about who holds it and who waits for it lives in
    one struct. `read`, `write` and the guards' `Drop`s touch it only while
    holding the lock's internal mutex, so each of their critical sections is
    one atomic step on it. This module gives that struct, the
    two admission predicates, the individual steps and wake-selection as pure
    definitions; the class in module Locking performs the same steps in place. */
module Monitor {

  /** Which class of waiter is favoured when readers and writers both wait. */
  datatype Preference = Reader | Writer

  /** In which order waiters of one class are woken and dequeued. */
  datatype Order = Fifo | Lifo

  /** A waiter handle (the per-request condition variable), abstracted to an id. */
  type Ticket = nat

  /** One notification issued by wake-selection: the queue it goes to and the
      position in that queue of the handle it signals. */
  datatype Signal = WakeReader(index: nat) | WakeWriter(index: nat)

  /** The bookkeeping struct: both wait queues and both active counters. */
  datatype State = State(readerWait: seq<Ticket>, writerWait: seq<Ticket>,
                         readerActive: int, writerActive: int)

  /** The state a freshly constructed lock starts in. */
  const Idle: State := State([], [], 0, 0)

  // ---------------------------------------------------------------------------
  // Invariants

  /** Neither counter is ever negative. */
  predicate NonNegative(g: State) {
    g.readerActive >= 0 && g.writerActive >= 0
  }

  /** At most one writer, and never readers and a writer at the same time. */
  predicate MutualExclusion(g: State) {
    g.writerActive <= 1 &&
    (g.writerActive > 0 ==> g.readerActive == 0) &&
    (g.readerActive > 0 ==> g.writerActive == 0)
  }

  /** No ticket occurs twice in a queue, nor in both queues. */
  predicate Distinct(q: seq<Ticket>) {
    forall i, j :: 0 <= i < j < |q| ==> q[i] != q[j]
  }

  predicate WellFormedQueues(g: State) {
    Distinct(g.readerWait) && Distinct(g.writerWait) &&
    forall t :: t in g.readerWait ==> t !in g.writerWait
  }

  /** What holds of the bookkeeping whenever the internal mutex is free. */
  predicate Invariant(g: State) {
    NonNegative(g) && MutualExclusion(g) && WellFormedQueues(g)
  }

  /** A ticket that is not already waiting in either queue. */
  predicate IsFresh(g: State, t: Ticket) {
    t !in g.readerWait && t !in g.writerWait
  }

  // ---------------------------------------------------------------------------
  // Admission predicates: true means the requesting thread must keep waiting.

  /** `read_wait`. */
  function ReadWait(pref: Preference, g: State): (wait: bool)
    // a reader is never admitted beside an active writer
    ensures g.writerActive > 0 ==> wait
    // under writer preference a waiting writer keeps new readers out
    ensures pref == Writer && |g.writerWait| > 0 ==> wait
    // and a reader waits for no other reason
    ensures wait ==> g.writerActive > 0 || (pref == Writer && |g.writerWait| > 0)
  {
    match pref
    case Reader => g.writerActive > 0
    case Writer => g.writerActive > 0 || |g.writerWait| > 0
  }

  /** `write_wait`. */
  function WriteWait(pref: Preference, g: State): (wait: bool)
    // a writer is never admitted beside an active reader or writer
    ensures g.writerActive > 0 || g.readerActive > 0 ==> wait
    // under reader preference waiting readers go first
    ensures pref == Reader && |g.readerWait| > 0 ==> wait
    // and a writer waits for no other reason
    ensures wait ==> g.writerActive > 0 || g.readerActive > 0 ||
                     (pref == Reader && |g.readerWait| > 0)
  {
    match pref
    case Reader => g.writerActive > 0 || |g.readerWait| > 0 || g.readerActive > 0
    case Writer => g.writerActive > 0 || g.readerActive > 0
  }

  // ---------------------------------------------------------------------------
  // Queues

  /** The position an admitted thread removes from its queue: the head under
      Fifo, the tail under Lifo. */
  function PopIndex(order: Order, n: nat): (k: nat)
    requires n > 0
    ensures k < n
    ensures order == Fifo ==> k == 0
    ensures order == Lifo ==> k == n - 1
  {
    match order
    case Fifo => 0
    case Lifo => n - 1
  }

  /** Removal of entry k, every other entry kept in order (reference definition). */
  function RemoveAt(q: seq<Ticket>, k: nat): (r: seq<Ticket>)
    requires k < |q|
  {
    q[..k] + q[k + 1..]
  }

  /** `remove(0)` under Fifo, `pop()` under Lifo. */
  function Pop(order: Order, q: seq<Ticket>): (r: seq<Ticket>)
    requires |q| > 0
    ensures r == RemoveAt(q, PopIndex(order, |q|))
    ensures |r| == |q| - 1
  {
    match order
    case Fifo => q[1..]
    case Lifo => q[..|q| - 1]
  }

  // ---------------------------------------------------------------------------
  // Atomic steps

  /** A read request puts its handle at the tail of the reader queue. */
  function RegisterReader(g: State, t: Ticket): (r: State)
    ensures |r.readerWait| == |g.readerWait| + 1
    ensures r.readerWait[..|g.readerWait|] == g.readerWait && r.readerWait[|g.readerWait|] == t
    ensures r.writerWait == g.writerWait
    ensures r.readerActive == g.readerActive && r.writerActive == g.writerActive
  {
    g.(readerWait := g.readerWait + [t])
  }

  /** A write request puts its handle at the tail of the writer queue. */
  function RegisterWriter(g: State, t: Ticket): (r: State)
    ensures |r.writerWait| == |g.writerWait| + 1
    ensures r.writerWait[..|g.writerWait|] == g.writerWait && r.writerWait[|g.writerWait|] == t
    ensures r.readerWait == g.readerWait
    ensures r.readerActive == g.readerActive && r.writerActive == g.writerActive
  {
    g.(writerWait := g.writerWait + [t])
  }

  /** A reader that found `read_wait` false dequeues one entry and becomes active. */
  function AdmitReader(order: Order, g: State): (r: State)
    requires |g.readerWait| > 0
    ensures r.readerWait == RemoveAt(g.readerWait, PopIndex(order, |g.readerWait|))
    ensures r.readerActive == g.readerActive + 1
    ensures r.writerWait == g.writerWait && r.writerActive == g.writerActive
  {
    g.(readerWait := Pop(order, g.readerWait), readerActive := g.readerActive + 1)
  }

  /** A writer that found `write_wait` false dequeues one entry and becomes active. */
  function AdmitWriter(order: Order, g: State): (r: State)
    requires |g.writerWait| > 0
    ensures r.writerWait == RemoveAt(g.writerWait, PopIndex(order, |g.writerWait|))
    ensures r.writerActive == g.writerActive + 1
    ensures r.readerWait == g.readerWait && r.readerActive == g.readerActive
  {
    g.(writerWait := Pop(order, g.writerWait), writerActive := g.writerActive + 1)
  }

  /** Dropping a read guard: the reader count goes down unless it is already 0. */
  function ReleaseReader(g: State): (r: State)
    ensures g.readerActive > 0 ==> r.readerActive == g.readerActive - 1
    ensures g.readerActive <= 0 ==> r == g
    ensures g.readerActive >= 0 ==> r.readerActive >= 0
    ensures r.readerWait == g.readerWait && r.writerWait == g.writerWait
    ensures r.writerActive == g.writerActive
  {
    if g.readerActive > 0 then g.(readerActive := g.readerActive - 1) else g
  }

  /** Dropping a write guard: the writer count goes down unless it is already 0. */
  function ReleaseWriter(g: State): (r: State)
    ensures g.writerActive > 0 ==> r.writerActive == g.writerActive - 1
    ensures g.writerActive <= 0 ==> r == g
    ensures g.writerActive >= 0 ==> r.writerActive >= 0
    ensures r.readerWait == g.readerWait && r.writerWait == g.writerWait
    ensures r.readerActive == g.readerActive
  {
    if g.writerActive > 0 then g.(writerActive := g.writerActive - 1) else g
  }

  // ---------------------------------------------------------------------------
  // Wake-selection

  /** Signals to every one of n waiting readers: ascending under Fifo,
      descending under Lifo. */
  function BatchWake(order: Order, n: nat): (s: seq<Signal>)
    ensures |s| == n
    ensures forall k :: 0 <= k < n ==> s[k].WakeReader? && s[k].index < n
    ensures forall i :: 0 <= i < n ==> WakeReader(i) in s
    ensures order == Fifo ==> forall j, k :: 0 <= j < k < n ==> s[j].index < s[k].index
    ensures order == Lifo ==> forall j, k :: 0 <= j < k < n ==> s[j].index > s[k].index
  {
    match order
    case Fifo =>
      var s := seq(n, k requires 0 <= k < n => WakeReader(k));
      assert forall i :: 0 <= i < n ==> s[i] == WakeReader(i);
      s
    case Lifo =>
      var s := seq(n, k requires 0 <= k < n => WakeReader(n - 1 - k));
      assert forall i :: 0 <= i < n ==> s[n - 1 - i] == WakeReader(i);
      s
  }

  /** Signals `notify_others` issues: the favoured class first; all waiting
      readers together, or a single writer at the position it will pop. */
  function Wakeups(pref: Preference, order: Order, g: State): (s: seq<Signal>)
    // every signal names an existing queue position
    ensures forall k :: 0 <= k < |s| ==>
              (s[k].WakeReader? ==> s[k].index < |g.readerWait|) &&
              (s[k].WakeWriter? ==> s[k].index < |g.writerWait|)
    // never signals both classes
    ensures (forall k :: 0 <= k < |s| ==> s[k].WakeReader?) ||
            (forall k :: 0 <= k < |s| ==> s[k].WakeWriter?)
    // someone is signalled exactly when someone waits
    ensures s == [] <==> g.readerWait == [] && g.writerWait == []
  {
    var readers := BatchWake(order, |g.readerWait|);
    var writer := if g.writerWait == [] then [] else [WakeWriter(PopIndex(order, |g.writerWait|))];
    match pref
    case Reader => if g.readerWait != [] then readers else writer
    case Writer => if g.writerWait != [] then writer else readers
  }

  // ---------------------------------------------------------------------------
  // Lemmas

  /** `RwLock::new` starts in a state that satisfies the invariant. */
  lemma IdleSatisfiesInvariant()
    ensures Invariant(Idle)
    ensures Idle.readerWait == [] && Idle.writerWait == []
    ensures Idle.readerActive == 0 && Idle.writerActive == 0
  {
  }

  /** Removing one entry keeps a queue free of duplicates and adds no ticket. */
  lemma RemoveAtKeepsDistinct(q: seq<Ticket>, k: nat)
    requires k < |q| && Distinct(q)
    ensures Distinct(RemoveAt(q, k))
    ensures forall t :: t in RemoveAt(q, k) ==> t in q
  {
    var r := RemoveAt(q, k);
    assert forall i :: 0 <= i < |r| ==> r[i] == q[if i < k then i else i + 1];
  }

  /** Appending a fresh ticket keeps the queues well formed. */
  lemma RegisterKeepsInvariant(g: State, t: Ticket)
    requires Invariant(g) && IsFresh(g, t)
    ensures Invariant(RegisterReader(g, t))
    ensures Invariant(RegisterWriter(g, t))
  {
  }

  /** A reader admitted when `read_wait` is false keeps mutual exclusion. */
  lemma AdmitReaderKeepsInvariant(pref: Preference, order: Order, g: State)
    requires Invariant(g) && |g.readerWait| > 0 && !ReadWait(pref, g)
    ensures Invariant(AdmitReader(order, g))
    ensures AdmitReader(order, g).writerActive == 0
  {
    RemoveAtKeepsDistinct(g.readerWait, PopIndex(order, |g.readerWait|));
  }

  /** A writer is only ever admitted from a state with nobody active. */
  lemma WriterAdmittedOnlyFromIdle(pref: Preference, g: State)
    requires NonNegative(g) && !WriteWait(pref, g)
    ensures g.readerActive == 0 && g.writerActive == 0
  {
  }

  /** A writer admitted when `write_wait` is false keeps mutual exclusion. */
  lemma AdmitWriterKeepsInvariant(pref: Preference, order: Order, g: State)
    requires Invariant(g) && |g.writerWait| > 0 && !WriteWait(pref, g)
    ensures Invariant(AdmitWriter(order, g))
    ensures AdmitWriter(order, g).writerActive == 1 && AdmitWriter(order, g).readerActive == 0
  {
    RemoveAtKeepsDistinct(g.writerWait, PopIndex(order, |g.writerWait|));
  }

  /** Dropping either guard keeps the invariant; counters never go negative. */
  lemma ReleaseKeepsInvariant(g: State)
    requires Invariant(g)
    ensures Invariant(ReleaseReader(g)) && Invariant(ReleaseWriter(g))
  {
  }

  /** Wake-selection under reader preference. */
  lemma ReaderPreferredWake(order: Order, g: State)
    ensures g.readerWait != [] ==>
              Wakeups(Reader, order, g) == BatchWake(order, |g.readerWait|)
    ensures g.readerWait == [] && g.writerWait != [] ==>
              Wakeups(Reader, order, g) ==
                [WakeWriter(if order == Fifo then 0 else |g.writerWait| - 1)]
  {
  }

  /** Wake-selection under writer preference. */
  lemma WriterPreferredWake(order: Order, g: State)
    ensures g.writerWait != [] ==>
              Wakeups(Writer, order, g) ==
                [WakeWriter(if order == Fifo then 0 else |g.writerWait| - 1)]
    ensures g.writerWait == [] && g.readerWait != [] ==>
              Wakeups(Writer, order, g) == BatchWake(order, |g.readerWait|)
  {
  }

  /** A writer signal is the only signal, and it names the slot that a writer
      admitted from this same state pops. A request that arrives between the
      signal and the re-check changes the queue, and with it the popped slot. */
  lemma SignalledWriterIsPoppedFromSameState(pref: Preference, order: Order, g: State, k: nat)
    requires k < |Wakeups(pref, order, g)| && Wakeups(pref, order, g)[k].WakeWriter?
    ensures |Wakeups(pref, order, g)| == 1 && |g.writerWait| > 0
    ensures Wakeups(pref, order, g)[k].index == PopIndex(order, |g.writerWait|)
  {
  }

  /** Wake-selection never wakes a thread that would fail its admission check
      at once: with no writer active every signalled reader may enter, and with
      nobody active a signalled writer may enter. */
  lemma SignalledWaitersAreAdmissible(pref: Preference, order: Order, g: State)
    requires NonNegative(g)
    ensures g.writerActive == 0 &&
            (exists k :: 0 <= k < |Wakeups(pref, order, g)| && Wakeups(pref, order, g)[k].WakeReader?)
            ==> !ReadWait(pref, g)
    ensures g.writerActive == 0 && g.readerActive == 0 &&
            (exists k :: 0 <= k < |Wakeups(pref, order, g)| && Wakeups(pref, order, g)[k].WakeWriter?)
            ==> !WriteWait(pref, g)
  {
  }
}
