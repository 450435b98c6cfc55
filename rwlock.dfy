/** The lock object: the bookkeeping fields it updates in place while its
    internal mutex is held. Each state-changing method is one critical section
    of the lock; NotifyOthers and SignalReaders run inside the critical section
    of DropRead and DropWrite.
    Blocking on condition variables is not modelled: `read` (and likewise
    `write`) is its first critical section, which pushes the new handle and
    evaluates the wait condition once, followed by one re-check per wake-up. */
module Locking {
  import opened Monitor

  class RwLock {
    const pref: Preference
    const order: Order
    var readerWait: seq<Ticket>
    var writerWait: seq<Ticket>
    var readerActive: int
    var writerActive: int

    /** The bookkeeping as a value. */
    function Snapshot(): (g: State)
      reads this
    {
      State(readerWait, writerWait, readerActive, writerActive)
    }

    ghost predicate Valid()
      reads this
    {
      Invariant(Snapshot())
    }

    /** `RwLock::new`: both queues empty, both counters 0. */
    constructor (pref: Preference, order: Order)
      ensures Valid()
      ensures this.pref == pref && this.order == order
      ensures readerWait == [] && writerWait == []
      ensures readerActive == 0 && writerActive == 0
    {
      this.pref := pref;
      this.order := order;
      readerWait := [];
      writerWait := [];
      readerActive := 0;
      writerActive := 0;
    }

    /** The first critical section of `read`: push a newly allocated handle,
        then evaluate `read_wait` once; if it is false, pop by order and enter.
        Otherwise the thread blocks with its queue one entry longer. */
    method RequestRead(t: Ticket) returns (admitted: bool)
      requires Valid() && IsFresh(Snapshot(), t)
      modifies this
      ensures Valid()
      ensures admitted == !ReadWait(pref, RegisterReader(old(Snapshot()), t))
      ensures admitted ==> readerWait == Pop(order, old(readerWait) + [t]) &&
                           readerActive == old(readerActive) + 1
      ensures !admitted ==> readerWait == old(readerWait) + [t] && readerActive == old(readerActive)
      ensures writerWait == old(writerWait) && writerActive == old(writerActive)
      ensures Snapshot() == if admitted then AdmitReader(order, RegisterReader(old(Snapshot()), t))
                            else RegisterReader(old(Snapshot()), t)
    {
      readerWait := readerWait + [t];
      RegisterKeepsInvariant(old(Snapshot()), t);
      admitted := TryAdmitRead();
    }

    /** A blocked reader woken (by a signal or spuriously) re-evaluates
        `read_wait`: if it holds, the thread keeps waiting and nothing changes;
        otherwise it pops its queue at the position the order dictates and
        becomes an active reader. The queue is not empty: every blocked reader
        pushed one entry and has not popped yet, and every pop is done by an
        admitted reader, so there are at least as many entries as blocked readers
        (Traces.ReachableStatesAreSafe). The entry is not necessarily the
        caller's own handle. */
    method TryAdmitRead() returns (admitted: bool)
      requires Valid() && |readerWait| > 0
      modifies this
      ensures Valid()
      ensures admitted == !ReadWait(pref, old(Snapshot()))
      ensures admitted ==> readerWait == Pop(order, old(readerWait)) &&
                           readerActive == old(readerActive) + 1
      ensures !admitted ==> readerWait == old(readerWait) && readerActive == old(readerActive)
      ensures writerWait == old(writerWait) && writerActive == old(writerActive)
      ensures Snapshot() == if admitted then AdmitReader(order, old(Snapshot())) else old(Snapshot())
      ensures admitted ==> writerActive == 0
    {
      if ReadWait(pref, Snapshot()) {
        admitted := false;
        return;
      }
      AdmitReaderKeepsInvariant(pref, order, Snapshot());
      match order {
        case Fifo => readerWait := readerWait[1..];
        case Lifo => readerWait := readerWait[..|readerWait| - 1];
      }
      readerActive := readerActive + 1;
      admitted := true;
    }

    /** The first critical section of `write`: push a newly allocated handle,
        then evaluate `write_wait` once; if it is false, pop by order and enter. */
    method RequestWrite(t: Ticket) returns (admitted: bool)
      requires Valid() && IsFresh(Snapshot(), t)
      modifies this
      ensures Valid()
      ensures admitted == !WriteWait(pref, RegisterWriter(old(Snapshot()), t))
      ensures admitted ==> old(readerActive) == 0 && old(writerActive) == 0
      ensures admitted ==> writerWait == Pop(order, old(writerWait) + [t]) && writerActive == 1
      ensures !admitted ==> writerWait == old(writerWait) + [t] && writerActive == old(writerActive)
      ensures readerWait == old(readerWait) && readerActive == old(readerActive)
      ensures Snapshot() == if admitted then AdmitWriter(order, RegisterWriter(old(Snapshot()), t))
                            else RegisterWriter(old(Snapshot()), t)
    {
      writerWait := writerWait + [t];
      RegisterKeepsInvariant(old(Snapshot()), t);
      admitted := TryAdmitWrite();
    }

    /** A blocked writer woken re-evaluates `write_wait`; a writer only enters an
        idle lock. The queue is not empty by the same counting argument as for
        TryAdmitRead. */
    method TryAdmitWrite() returns (admitted: bool)
      requires Valid() && |writerWait| > 0
      modifies this
      ensures Valid()
      ensures admitted == !WriteWait(pref, old(Snapshot()))
      ensures admitted ==> old(readerActive) == 0 && old(writerActive) == 0
      ensures admitted ==> writerWait == Pop(order, old(writerWait)) && writerActive == 1
      ensures !admitted ==> writerWait == old(writerWait) && writerActive == old(writerActive)
      ensures readerWait == old(readerWait) && readerActive == old(readerActive)
      ensures Snapshot() == if admitted then AdmitWriter(order, old(Snapshot())) else old(Snapshot())
    {
      if WriteWait(pref, Snapshot()) {
        admitted := false;
        return;
      }
      WriterAdmittedOnlyFromIdle(pref, Snapshot());
      AdmitWriterKeepsInvariant(pref, order, Snapshot());
      match order {
        case Fifo => writerWait := writerWait[1..];
        case Lifo => writerWait := writerWait[..|writerWait| - 1];
      }
      writerActive := writerActive + 1;
      admitted := true;
    }

    /** `notify_others`: the queue positions it signals, the state untouched. */
    method NotifyOthers() returns (signals: seq<Signal>)
      ensures signals == Wakeups(pref, order, Snapshot())
    {
      signals := [];
      var n := |readerWait|;
      match pref {
        case Reader =>
          if n > 0 {
            signals := SignalReaders();
          } else if |writerWait| > 0 {
            match order {
              case Fifo => signals := [WakeWriter(0)];
              case Lifo => signals := [WakeWriter(|writerWait| - 1)];
            }
          }
        case Writer =>
          if |writerWait| > 0 {
            match order {
              case Fifo => signals := [WakeWriter(0)];
              case Lifo => signals := [WakeWriter(|writerWait| - 1)];
            }
          } else if n > 0 {
            signals := SignalReaders();
          }
      }
    }

    /** The loops of `notify_others` over the reader queue: every index once,
        ascending under Fifo and descending under Lifo. */
    method SignalReaders() returns (signals: seq<Signal>)
      ensures signals == BatchWake(order, |readerWait|)
    {
      var n := |readerWait|;
      ghost var all := BatchWake(order, n);
      signals := [];
      match order {
        case Fifo =>
          for i := 0 to n
            invariant signals == all[..i]
          {
            signals := signals + [WakeReader(i)];
          }
        case Lifo =>
          for i := n downto 0
            invariant signals == all[..n - i]
          {
            signals := signals + [WakeReader(i)];
          }
      }
      assert all[..n] == all;
    }

    /** `Drop` of a read guard: guarded decrement, then wake-selection. */
    method DropRead() returns (signals: seq<Signal>)
      requires Valid()
      modifies this
      ensures Valid()
      ensures old(readerActive) > 0 ==> readerActive == old(readerActive) - 1
      ensures old(readerActive) == 0 ==> readerActive == 0
      ensures readerWait == old(readerWait) && writerWait == old(writerWait)
      ensures writerActive == old(writerActive)
      ensures Snapshot() == ReleaseReader(old(Snapshot()))
      ensures signals == Wakeups(pref, order, Snapshot())
    {
      ReleaseKeepsInvariant(Snapshot());
      if readerActive > 0 {
        readerActive := readerActive - 1;
      }
      signals := NotifyOthers();
    }

    /** `Drop` of a write guard: guarded decrement, then wake-selection. */
    method DropWrite() returns (signals: seq<Signal>)
      requires Valid()
      modifies this
      ensures Valid()
      ensures old(writerActive) > 0 ==> writerActive == old(writerActive) - 1
      ensures old(writerActive) == 0 ==> writerActive == 0
      ensures readerWait == old(readerWait) && writerWait == old(writerWait)
      ensures readerActive == old(readerActive)
      ensures Snapshot() == ReleaseWriter(old(Snapshot()))
      ensures signals == Wakeups(pref, order, Snapshot())
    {
      ReleaseKeepsInvariant(Snapshot());
      if writerActive > 0 {
        writerActive := writerActive - 1;
      }
      signals := NotifyOthers();
    }
  }
}
