/** What a decommit achieves, and what a wait that times out does, over whole runs of the pool. */
module BufPoolDecommit {
  import opened BufPool

  // ---------------------------------------------------------------------------------------------
  // Decommit
  // ---------------------------------------------------------------------------------------------

  /** Once the pool is decommitted it stays so. */
  lemma DecommitStays(before: State, e: Event, s: State)
    requires Leads(before, e, s) && before.decommitted
    ensures s.decommitted
  {
  }

  /** A step of another thread leaves a thread where it was. */
  lemma OthersStay(before: State, e: Event, s: State, t: nat)
    requires Leads(before, e, s) && t < |before.threads|
    requires e.Ref? || e.t != t
    ensures |s.threads| == |before.threads| && s.threads[t] == before.threads[t]
  {
    if e.Move? {
      MovedThread(before, e.t, e.timeout);
    }
    hide Moved;
  }

  /** A thread that decommits has set the flag, or is still about to. */
  ghost predicate DecommitDue(s: State, t: nat) {
    t < |s.threads| && (s.decommitted || s.threads[t] == DcLock || s.threads[t] == DcSet)
  }

  lemma DueStarts(before: State, s: State, t: nat)
    requires Leads(before, Decommit(t), s)
    ensures DecommitDue(s, t)
  {
  }

  lemma DueStays(before: State, e: Event, s: State, t: nat)
    requires Leads(before, e, s) && DecommitDue(before, t)
    ensures DecommitDue(s, t)
  {
    if before.decommitted {
      DecommitStays(before, e, s);
      SameSizes(before, e);
    } else if e.Ref? || e.t != t {
      OthersStay(before, e, s, t);
    } else {
      DueMoves(before, e, s, t);
    }
    hide Apply, Moved;
  }

  lemma DueMoves(before: State, e: Event, s: State, t: nat)
    requires Leads(before, e, s) && !e.Ref? && e.t == t < |before.threads|
    requires before.threads[t] == DcLock || before.threads[t] == DcSet
    ensures DecommitDue(s, t)
  {
    assert e.Move?;
  }

  /** In every run: a thread that has started a decommit and is idle again has decommitted the pool. */
  lemma {:induction false} DecommitDone(s: State, n: nat, threads: nat, events: seq<Event>, t: nat)
    requires Reached(s, n, threads, events) && Decommit(t) in events
    ensures DecommitDue(s, t)
    ensures s.threads[t].Idle? ==> s.decommitted
    decreases |events|
  {
    hide Apply, Enabled, Shaped;
    var before: State :| Reached(before, n, threads, events[1..]) && Leads(before, events[0], s);
    if events[0] == Decommit(t) {
      DueStarts(before, s, t);
    } else {
      assert Decommit(t) in events[1..];
      DecommitDone(before, n, threads, events[1..], t);
      DueStays(before, events[0], s, t);
    }
  }

  /** From then on no step makes a thread wait. */
  lemma NobodyWaits(before: State, e: Event, s: State, t: nat)
    requires Leads(before, e, s) && before.decommitted && t < |before.threads| && t < |s.threads|
    ensures s.threads[t].DqWait? ==> before.threads[t].DqWait?
  {
    if e.Ref? || e.t != t {
      OthersStay(before, e, s, t);
    } else if e.Move? {
      WaitsAfterTest(before, t, e.timeout);
    } else {
      StartsUnfailed(before, e, s);
    }
    hide Apply, Moved, Enabled, Shaped;
  }

  lemma WaitsAfterTest(s: State, t: nat, timeout: bool)
    requires Shaped(s) && Enabled(s, Move(t, timeout)) && t < |Moved(s, t, timeout).threads|
    ensures Moved(s, t, timeout).threads[t].DqWait? ==> s.threads[t].DqTest? && !s.decommitted
  {
  }

  /** And who finds the queue empty returns NULL, whoever finds an element takes it. */
  lemma TestDecides(before: State, t: nat, timeout: bool, s: State)
    requires Inv(before) && Leads(before, Move(t, timeout), s) && before.threads[t].DqTest? && before.decommitted
    ensures t < |s.threads| && s.threads[t] == if before.queue == [] then DqNull else DqTake
  {
    TestCounts(before, t);
    TestStep(before, t, timeout, s);
    hide Inv, Leads;
  }

  lemma TestCounts(s: State, t: nat)
    requires Inv(s) && t < |s.threads| && s.threads[t].DqTest?
    ensures s.count == |s.queue|
  {
    hide Places, Permits, Counts, Fifo;
  }

  // ---------------------------------------------------------------------------------------------
  // Waits
  // ---------------------------------------------------------------------------------------------

  /** How each thread's last wait ended since its last call, true when it timed out. */
  function Outcomes(before: State, e: Event, outcomes: seq<bool>): (r: seq<bool>)
    requires |outcomes| == |before.threads|
    ensures |r| == |outcomes|
  {
    match e
    case Get(t) => if t < |outcomes| then outcomes[t := false] else outcomes
    case Move(t, timeout) => if t < |outcomes| && before.threads[t].DqWait? then outcomes[t := timeout] else outcomes
    case _ => outcomes
  }

  /** Reached, with the outcomes of the waits on the way. */
  ghost predicate ReachedWith(s: State, n: nat, threads: nat, events: seq<Event>, outcomes: seq<bool>)
    decreases |events|
  {
    if events == [] then s == Initial(n, threads) && outcomes == seq(threads, _ => false)
    else
      exists before: State, earlier: seq<bool> ::
        && ReachedWith(before, n, threads, events[1..], earlier) && Leads(before, events[0], s)
        && |earlier| == |before.threads| && outcomes == Outcomes(before, events[0], earlier)
  }

  /** A thread that goes on to look at the count knows how its last wait ended. */
  ghost predicate Knows(s: State, outcomes: seq<bool>) {
    && |outcomes| == |s.threads|
    && forall t :: 0 <= t < |s.threads| && (s.threads[t].DqLock? || s.threads[t].DqTest?) ==>
                     s.threads[t].failed == outcomes[t]
  }

  lemma KnowsNext(before: State, e: Event, s: State, outcomes: seq<bool>)
    requires Leads(before, e, s) && Knows(before, outcomes)
    ensures Knows(s, Outcomes(before, e, outcomes))
  {
    SameSizes(before, e);
    hide Apply, Enabled, Shaped;
    forall t | 0 <= t < |s.threads| && (s.threads[t].DqLock? || s.threads[t].DqTest?)
      ensures s.threads[t].failed == Outcomes(before, e, outcomes)[t]
    {
      if e.Ref? || e.t != t {
        OthersStay(before, e, s, t);
      } else {
        KnowsOwn(before, e, s, outcomes);
      }
    }
  }

  lemma KnowsOwn(before: State, e: Event, s: State, outcomes: seq<bool>)
    requires Leads(before, e, s) && !e.Ref? && e.t < |before.threads| == |s.threads| == |outcomes|
    requires before.threads[e.t].DqLock? || before.threads[e.t].DqTest? ==> before.threads[e.t].failed == outcomes[e.t]
    ensures s.threads[e.t].DqLock? || s.threads[e.t].DqTest? ==>
              s.threads[e.t].failed == Outcomes(before, e, outcomes)[e.t]
  {
    if e.Move? {
      FailedMoves(before, e.t, e.timeout);
      hide Moved, Shaped, Enabled;
    } else {
      StartsUnfailed(before, e, s);
      hide Apply, Shaped, Enabled;
    }
  }

  lemma FailedMoves(s: State, t: nat, timeout: bool)
    requires Shaped(s) && Enabled(s, Move(t, timeout)) && t < |Moved(s, t, timeout).threads|
    ensures var pc, pc' := s.threads[t], Moved(s, t, timeout).threads[t];
            && (pc'.DqLock? ==> pc.DqWait? && pc'.failed == timeout)
            && (pc'.DqTest? ==> pc.DqLock? && pc'.failed == pc.failed)
  {
  }

  lemma StartsUnfailed(before: State, e: Event, s: State)
    requires Leads(before, e, s) && !e.Ref? && !e.Move? && e.t < |s.threads|
    ensures !s.threads[e.t].DqTest? && !s.threads[e.t].DqWait? && (s.threads[e.t].DqLock? ==> e.Get? && !s.threads[e.t].failed)
  {
    hide Moved;
  }

  lemma {:induction false} EveryWait(s: State, n: nat, threads: nat, events: seq<Event>, outcomes: seq<bool>)
    requires ReachedWith(s, n, threads, events, outcomes)
    ensures Reached(s, n, threads, events) && Knows(s, outcomes)
    decreases |events|
  {
    hide Apply, Enabled, Shaped, Knows, Outcomes;
    if events == [] {
      NobodyWaited(n, threads);
    } else {
      var before: State, earlier: seq<bool> :|
        ReachedWith(before, n, threads, events[1..], earlier) && Leads(before, events[0], s)
        && |earlier| == |before.threads| && outcomes == Outcomes(before, events[0], earlier);
      EveryWait(before, n, threads, events[1..], earlier);
      KnowsNext(before, events[0], s, earlier);
    }
  }

  lemma NobodyWaited(n: nat, threads: nat)
    ensures Knows(Initial(n, threads), seq(threads, _ => false))
  {
  }

  /** In every run: a thread turns to returning NULL exactly when, looking at the count, it finds the queue
      empty, and its last wait timed out or the pool is decommitted. Otherwise an empty queue makes it
      wait. */
  lemma NullExactly(before: State, n: nat, threads: nat, events: seq<Event>, outcomes: seq<bool>, t: nat, timeout: bool, s: State)
    requires ReachedWith(before, n, threads, events, outcomes) && Leads(before, Move(t, timeout), s)
    requires before.threads[t].DqTest?
    ensures t < |s.threads| && t < |outcomes|
    ensures s.threads[t] == if before.queue != [] then DqTake
                            else if outcomes[t] || before.decommitted then DqNull else DqWait
  {
    EveryWait(before, n, threads, events, outcomes);
    EveryRun(before, n, threads, events);
    TestCounts(before, t);
    TestStep(before, t, timeout, s);
    hide *;
    KnowsAt(before, outcomes, t);
  }

  lemma KnowsAt(s: State, outcomes: seq<bool>, t: nat)
    requires Knows(s, outcomes) && t < |s.threads| && s.threads[t].DqTest?
    ensures t < |outcomes| && s.threads[t].failed == outcomes[t]
  {
  }

  lemma TestStep(before: State, t: nat, timeout: bool, s: State)
    requires Leads(before, Move(t, timeout), s) && before.threads[t].DqTest?
    ensures t < |s.threads| == |before.threads|
    ensures s.threads[t] == if before.count > 0 then DqTake
                            else if before.threads[t].failed || before.decommitted then DqNull else DqWait
  {
  }
}
