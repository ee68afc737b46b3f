/** The buffer pool as interleaved threads. Every access of the FIFO's fields, every semaphore and mutex
    operation and every atomic reference count is a step of its own; what lies between two of them is a
    program point. */
module BufPool {
  import opened Option

  /** Buffers are numbered from 0; threads are numbered by their index. */
  type Buf = nat

  /** Where a thread stands. */
  datatype Pc =
    | Idle
      // AL_BufPool_GetBuffer and Fifo_Dequeue
    | DqLock(failed: bool)    // before the mutex; failed when the wait timed out
    | DqTest(failed: bool)    // holding the mutex, before looking at the count
    | DqWait                  // mutex released, waiting for the event
    | DqTake                  // holding the mutex, count seen positive
    | DqHead(buf: Buf)        // element read, before the head moves
    | DqCount(buf: Buf)       // head moved, before the count goes down
    | DqUnlock(buf: Buf)      // before the mutex is released
    | DqPost(buf: Buf)        // before the space semaphore is released
    | DqRef(buf: Buf)         // before the reference count goes up
    | DqNull                  // holding the mutex, going to return NULL
      // AL_sBufPool_FreeBufInPool, AL_sBufPool_AddBuf and Fifo_Queue
    | QWait(buf: Buf)         // before the space semaphore
    | QLock(buf: Buf)         // permit taken, before the mutex
    | QStore(buf: Buf)        // holding the mutex, before the slot is written
    | QTail(buf: Buf)         // slot written, before the tail moves
    | QCount(buf: Buf)        // tail moved, before the count goes up
    | QUnlock(buf: Buf)       // before the mutex is released
      // Fifo_Decommit
    | DcLock
    | DcSet
    | DcUnlock

  /** Inside the critical section. */
  predicate InSection(pc: Pc) {
    pc.DqTest? || pc.DqTake? || pc.DqHead? || pc.DqCount? || pc.DqUnlock? || pc.DqNull?
    || pc.QStore? || pc.QTail? || pc.QCount? || pc.QUnlock? || pc.DcSet? || pc.DcUnlock?
  }

  /** The FIFO, the reference counts, and for the proof: the handles clients own, the buffers not yet
      added to the pool, the queue the ring stands for, and everything that came and went. */
  datatype State = State(
    threads: seq<Pc>,
    mutex: Option<nat>,
    permits: nat,
    slots: seq<Buf>,
    head: nat,
    tail: nat,
    count: int,
    decommitted: bool,
    refs: seq<int>,
    handles: multiset<Buf>,
    unborn: multiset<Buf>,
    queue: seq<Buf>,
    arrived: seq<Buf>,
    left: seq<Buf>)

  /** What can happen next: a client starts a call, clones a handle it owns, or a thread makes its
      next step (whose wait may time out). */
  datatype Event =
    | Get(t: nat)
    | Unref(t: nat, b: Buf)
    | Ref(b: Buf)
    | Add(t: nat, b: Buf)
    | Decommit(t: nat)
    | Move(t: nat, timeout: bool)

  /** Fifo_Init for n elements: a ring of n + 1 slots and n permits. */
  function Initial(n: nat, threads: nat): State {
    State(seq(threads, _ => Idle), None, n, seq(n + 1, _ => 0), 0, 0, 0, false,
          seq(n, _ => 0), multiset{}, All(n), [], [], [])
  }

  function All(n: nat): multiset<Buf> {
    if n == 0 then multiset{} else All(n - 1) + multiset{n - 1}
  }

  /** An event can happen: calls start on idle threads with handles the client owns; a step waits for
      the mutex and for a permit. */
  predicate Enabled(s: State, e: Event) {
    match e
    case Get(t) => t < |s.threads| && s.threads[t].Idle?
    case Unref(t, b) => t < |s.threads| && s.threads[t].Idle? && b in s.handles
    case Ref(b) => b in s.handles
    case Add(t, b) => t < |s.threads| && s.threads[t].Idle? && b in s.unborn
    case Decommit(t) => t < |s.threads| && s.threads[t].Idle?
    case Move(t, timeout) =>
      && t < |s.threads|
      && match s.threads[t]
         case Idle => false
         case DqLock(_) => s.mutex == None
         case QLock(_) => s.mutex == None
         case DcLock => s.mutex == None
         case QWait(_) => s.permits > 0
         case _ => true
  }

  function At(s: State, t: nat, pc: Pc): State
    requires t < |s.threads|
  {
    s.(threads := s.threads[t := pc])
  }

  /** The state is well shaped: what indexing in the steps needs. */
  predicate Shaped(s: State) {
    && |s.slots| == |s.refs| + 1
    && s.head < |s.slots| && s.tail < |s.slots|
    && (forall b :: b in s.handles ==> b < |s.refs|)
    && (forall t :: 0 <= t < |s.threads| && s.threads[t].DqRef? ==> s.threads[t].buf < |s.refs|)
  }

  function Apply(s: State, e: Event): State
    requires Shaped(s) && Enabled(s, e)
  {
    match e
    case Get(t) => At(s, t, DqLock(false))
    case Decommit(t) => At(s, t, DcLock)
    case Add(t, b) => At(s, t, QWait(b)).(unborn := s.unborn - multiset{b})
    case Ref(b) => s.(refs := s.refs[b := s.refs[b] + 1], handles := s.handles + multiset{b})
    case Unref(t, b) =>
      var left := s.refs[b] - 1;
      At(s, t, if left > 0 then Idle else QWait(b)).(refs := s.refs[b := left], handles := s.handles - multiset{b})
    case Move(t, timeout) => Moved(s, t, timeout)
  }

  /** The next step of thread t. */
  function Moved(s: State, t: nat, timeout: bool): State
    requires Shaped(s) && Enabled(s, Move(t, timeout))
  {
    match s.threads[t]
    case DqLock(failed) => At(s, t, DqTest(failed)).(mutex := Some(t))
    case DqTest(failed) =>
      if s.count > 0 then At(s, t, DqTake)
      else if failed || s.decommitted then At(s, t, DqNull)
      else At(s, t, DqWait).(mutex := None)
    case DqWait => At(s, t, DqLock(timeout))
    case DqNull => At(s, t, Idle).(mutex := None)
    case DqTake => At(s, t, DqHead(s.slots[s.head]))
    case DqHead(b) =>
      At(s, t, DqCount(b)).(head := (s.head + 1) % |s.slots|,
                            queue := if s.queue == [] then [] else s.queue[1..], left := s.left + [b])
    case DqCount(b) => At(s, t, DqUnlock(b)).(count := s.count - 1)
    case DqUnlock(b) => At(s, t, DqPost(b)).(mutex := None)
    case DqPost(b) => At(s, t, DqRef(b)).(permits := s.permits + 1)
    case DqRef(b) => At(s, t, Idle).(refs := s.refs[b := s.refs[b] + 1], handles := s.handles + multiset{b})
    case QWait(b) => At(s, t, QLock(b)).(permits := s.permits - 1)
    case QLock(b) => At(s, t, QStore(b)).(mutex := Some(t))
    case QStore(b) => At(s, t, QTail(b)).(slots := s.slots[s.tail := b])
    case QTail(b) =>
      At(s, t, QCount(b)).(tail := (s.tail + 1) % |s.slots|, queue := s.queue + [b], arrived := s.arrived + [b])
    case QCount(b) => At(s, t, QUnlock(b)).(count := s.count + 1)
    case QUnlock(b) => At(s, t, Idle).(mutex := None)
    case DcLock => At(s, t, DcSet).(mutex := Some(t))
    case DcSet => At(s, t, DcUnlock).(decommitted := true)
    case DcUnlock => At(s, t, Idle).(mutex := None)
  }

  // ---------------------------------------------------------------------------------------------
  // The invariant
  // ---------------------------------------------------------------------------------------------

  /** The buffer a thread has in its hands: on its way into the queue or out of it. */
  function Hand(pc: Pc): Option<Buf> {
    if pc.QWait? || pc.QLock? || pc.QStore? || pc.QTail? || pc.DqCount? || pc.DqUnlock? || pc.DqPost? || pc.DqRef?
    then Some(pc.buf) else None
  }

  function Carried(pc: Pc): multiset<Buf> {
    match Hand(pc)
    case Some(b) => multiset{b}
    case None => multiset{}
  }

  /** One permit is taken for a queue operation in flight: not yet queued, or no longer queued. */
  function Charged(pc: Pc): nat {
    if pc.QLock? || pc.QStore? || pc.QTail? || pc.DqCount? || pc.DqUnlock? || pc.DqPost? then 1 else 0
  }

  function AllCarried(threads: seq<Pc>): multiset<Buf> {
    if threads == [] then multiset{} else AllCarried(threads[..|threads| - 1]) + Carried(threads[|threads| - 1])
  }

  function AllCharged(threads: seq<Pc>): nat {
    if threads == [] then 0 else AllCharged(threads[..|threads| - 1]) + Charged(threads[|threads| - 1])
  }

  /** The buffers clients hold: those with a positive reference count. */
  function Held(refs: seq<int>): multiset<Buf> {
    if refs == [] then multiset{} else Held(refs[..|refs| - 1]) + HeldOne(|refs| - 1, refs[|refs| - 1])
  }

  function HeldOne(b: Buf, n: int): multiset<Buf> {
    if n > 0 then multiset{b} else multiset{}
  }

  /** Mutual exclusion: a thread is inside the critical section exactly when it holds the mutex. */
  ghost predicate Exclusion(s: State) {
    && (s.mutex.Some? ==> s.mutex.value < |s.threads|)
    && forall t :: 0 <= t < |s.threads| ==> (InSection(s.threads[t]) <==> s.mutex == Some(t))
  }

  /** The program point of the mutex holder. */
  function Holder(s: State): Pc {
    if s.mutex.Some? && s.mutex.value < |s.threads| then s.threads[s.mutex.value] else Idle
  }

  /** The ring stands for the queue; the count is off only between the two halves of an update. */
  ghost predicate Ring(s: State) {
    var m, h := |s.slots|, Holder(s);
    && m == |s.refs| + 1 && s.head < m && s.tail < m && |s.queue| < m
    && s.tail == (s.head + |s.queue|) % m
    && (forall i :: 0 <= i < |s.queue| ==> s.slots[(s.head + i) % m] == s.queue[i])
    && s.count == |s.queue| + (if h.DqCount? then 1 else 0) - (if h.QCount? then 1 else 0)
    && (h.QTail? ==> s.slots[s.tail] == h.buf)
    && (h.DqTake? ==> s.queue != [])
    && (h.DqHead? ==> s.queue != [] && s.queue[0] == h.buf)
    && (h.DqNull? ==> s.queue == [])
  }

  /** Every buffer is in one place: queued, carried by a thread, held by clients, or not yet added. */
  ghost predicate Places(s: State) {
    multiset(s.queue) + AllCarried(s.threads) + Held(s.refs) + s.unborn == All(|s.refs|)
  }

  /** Free permits, queued elements and operations in flight make up the capacity. */
  ghost predicate Permits(s: State) {
    s.permits + |s.queue| + AllCharged(s.threads) == |s.refs|
  }

  /** A reference count is the number of handles clients own. */
  ghost predicate Counts(s: State) {
    && (forall b :: 0 <= b < |s.refs| ==> s.refs[b] == s.handles[b])
    && (forall b :: b in s.handles ==> b < |s.refs|)
  }

  /** First in, first out. */
  ghost predicate Fifo(s: State) {
    s.arrived == s.left + s.queue
  }

  ghost predicate Inv(s: State) {
    Exclusion(s) && Ring(s) && Places(s) && Permits(s) && Counts(s) && Fifo(s)
  }

  // ---------------------------------------------------------------------------------------------
  // Sums
  // ---------------------------------------------------------------------------------------------

  lemma Swap(a: multiset<Buf>, b: multiset<Buf>, c: multiset<Buf>)
    ensures a + b + c == a + c + b
  {
  }

  lemma {:induction false} CarriedUpdate(threads: seq<Pc>, t: nat, pc: Pc)
    requires t < |threads|
    ensures AllCarried(threads[t := pc]) + Carried(threads[t]) == AllCarried(threads) + Carried(pc)
  {
    hide Carried;
    var n := |threads| - 1;
    if t < n {
      CarriedUpdate(threads[..n], t, pc);
      assert threads[t := pc][..n] == threads[..n][t := pc];
      Swap(AllCarried(threads[..n][t := pc]), Carried(threads[n]), Carried(threads[t]));
      Swap(AllCarried(threads[..n]), Carried(threads[n]), Carried(pc));
    } else {
      assert threads[t := pc][..n] == threads[..n];
      Swap(AllCarried(threads[..n]), Carried(threads[n]), Carried(pc));
    }
  }

  lemma {:induction false} ChargedUpdate(threads: seq<Pc>, t: nat, pc: Pc)
    requires t < |threads|
    ensures AllCharged(threads[t := pc]) + Charged(threads[t]) == AllCharged(threads) + Charged(pc)
  {
    hide Charged;
    var n := |threads| - 1;
    if t < n {
      ChargedUpdate(threads[..n], t, pc);
      assert threads[t := pc][..n] == threads[..n][t := pc];
    } else {
      assert threads[t := pc][..n] == threads[..n];
    }
  }

  lemma {:induction false} HeldUpdate(refs: seq<int>, b: nat, v: int)
    requires b < |refs|
    ensures Held(refs[b := v]) + HeldOne(b, refs[b]) == Held(refs) + HeldOne(b, v)
  {
    hide HeldOne;
    var n := |refs| - 1;
    if b < n {
      HeldUpdate(refs[..n], b, v);
      assert refs[b := v][..n] == refs[..n][b := v];
      Swap(Held(refs[..n][b := v]), HeldOne(n, refs[n]), HeldOne(b, refs[b]));
      Swap(Held(refs[..n]), HeldOne(n, refs[n]), HeldOne(b, v));
    } else {
      assert refs[b := v][..n] == refs[..n];
      Swap(Held(refs[..n]), HeldOne(n, refs[n]), HeldOne(b, v));
    }
  }

  lemma {:induction false} AllOnce(n: nat, b: Buf)
    ensures All(n)[b] == if b < n then 1 else 0
  {
    if n > 0 {
      AllOnce(n - 1, b);
    }
  }

  lemma {:induction false} AllSize(n: nat)
    ensures |All(n)| == n
  {
    if n > 0 {
      AllSize(n - 1);
    }
  }

  lemma {:induction false} CarriedOne(threads: seq<Pc>, t: nat)
    requires t < |threads|
    ensures Carried(threads[t]) <= AllCarried(threads)
    ensures Charged(threads[t]) <= AllCharged(threads)
  {
    hide Carried, Charged;
    var n := |threads| - 1;
    if t < n {
      CarriedOne(threads[..n], t);
    }
  }

  /** A carried buffer is a buffer of the pool with no references. */
  lemma CarriedFree(s: State, t: nat, b: Buf)
    requires Places(s) && Counts(s) && t < |s.threads| && Carried(s.threads[t]) == multiset{b}
    ensures b < |s.refs| && s.refs[b] == 0
  {
    CarriedOne(s.threads, t);
    AllOnce(|s.refs|, b);
    assert All(|s.refs|)[b] >= AllCarried(s.threads)[b] + Held(s.refs)[b];
    assert AllCarried(s.threads)[b] >= 1;
    if s.refs[b] > 0 {
      HeldMember(s.refs, b);
    }
  }

  lemma {:induction false} HeldMember(refs: seq<int>, b: nat)
    requires b < |refs| && refs[b] > 0
    ensures Held(refs)[b] >= 1
  {
    if b < |refs| - 1 {
      HeldMember(refs[..|refs| - 1], b);
    }
  }

  // ---------------------------------------------------------------------------------------------
  // Every step keeps the invariant
  // ---------------------------------------------------------------------------------------------

  lemma InvShaped(s: State)
    requires Inv(s)
    ensures Shaped(s)
  {
    forall t | 0 <= t < |s.threads| && s.threads[t].DqRef?
      ensures s.threads[t].buf < |s.refs|
    {
      CarriedFree(s, t, s.threads[t].buf);
    }
  }

  /** How one step may change the mutex: not at all, by entering, or by leaving. */
  ghost predicate MutexStep(s: State, s': State, t: nat) {
    && t < |s.threads| == |s'.threads|
    && (forall u :: 0 <= u < |s.threads| && u != t ==> s'.threads[u] == s.threads[u])
    && var before, after := InSection(s.threads[t]), InSection(s'.threads[t]);
       || (before == after && s'.mutex == s.mutex)
       || (!before && after && s.mutex == None && s'.mutex == Some(t))
       || (before && !after && s'.mutex == None)
  }

  lemma MutexStepKeeps(s: State, s': State, t: nat)
    requires Exclusion(s) && MutexStep(s, s', t)
    ensures Exclusion(s')
    ensures InSection(s.threads[t]) ==> Holder(s) == s.threads[t]
    ensures InSection(s'.threads[t]) ==> Holder(s') == s'.threads[t]
    ensures !InSection(s.threads[t]) && !InSection(s'.threads[t]) ==> Holder(s') == Holder(s)
    ensures !InSection(s.threads[t]) && InSection(s'.threads[t]) ==> Holder(s) == Idle
    ensures InSection(s.threads[t]) && !InSection(s'.threads[t]) ==> Holder(s') == Idle
  {
    hide InSection;
    forall u | 0 <= u < |s'.threads|
      ensures InSection(s'.threads[u]) <==> s'.mutex == Some(u)
    {
      if u != t {
        assert s'.threads[u] == s.threads[u];
      }
    }
  }

  /** The steps of the critical section keep the mutex or hand it over properly. */
  lemma MovedMutex(s: State, t: nat, timeout: bool)
    requires Shaped(s) && Enabled(s, Move(t, timeout))
    ensures MutexStep(s, Moved(s, t, timeout), t)
  {
    hide Moved, Shaped, InSection, Enters;
    MovedThread(s, t, timeout);
    var pc := s.threads[t];
    if pc.DqLock? || pc.DqTest? || pc.DqWait? || pc.DqNull? || pc.DqTake? {
      WaiterSection(s, t, timeout);
    } else if pc.DqHead? || pc.DqCount? || pc.DqUnlock? || pc.DqPost? || pc.DqRef? {
      TakerSection(s, t, timeout);
    } else {
      OtherSection(s, t, timeout);
    }
    EntersMeans(s, Moved(s, t, timeout), t);
  }

  /** Entering the critical section takes the mutex, leaving it gives the mutex back. */
  ghost predicate Enters(s: State, s': State, t: nat) {
    && t < |s.threads| && t < |s'.threads|
    && var before, after := InSection(s.threads[t]), InSection(s'.threads[t]);
       || (before == after && s'.mutex == s.mutex)
       || (!before && after && s.mutex == None && s'.mutex == Some(t))
       || (before && !after && s'.mutex == None)
  }

  lemma EntersMeans(s: State, s': State, t: nat)
    requires Enters(s, s', t) && OneThread(s, s', t)
    ensures MutexStep(s, s', t)
  {
    hide InSection;
  }

  lemma WaiterSection(s: State, t: nat, timeout: bool)
    requires Shaped(s) && Enabled(s, Move(t, timeout))
    requires var pc := s.threads[t]; pc.DqLock? || pc.DqTest? || pc.DqWait? || pc.DqNull? || pc.DqTake?
    ensures Enters(s, Moved(s, t, timeout), t)
  {
  }

  lemma TakerSection(s: State, t: nat, timeout: bool)
    requires Shaped(s) && Enabled(s, Move(t, timeout))
    requires var pc := s.threads[t]; pc.DqHead? || pc.DqCount? || pc.DqUnlock? || pc.DqPost? || pc.DqRef?
    ensures Enters(s, Moved(s, t, timeout), t)
  {
  }

  lemma OtherSection(s: State, t: nat, timeout: bool)
    requires Shaped(s) && Enabled(s, Move(t, timeout))
    requires var pc := s.threads[t];
             pc.QWait? || pc.QLock? || pc.QStore? || pc.QTail? || pc.QCount? || pc.QUnlock?
             || pc.DcLock? || pc.DcSet? || pc.DcUnlock?
    ensures Enters(s, Moved(s, t, timeout), t)
  {
  }

  lemma Wrap(x: nat, m: nat)
    requires m > 0 && x < 2 * m
    ensures x % m == if x < m then x else x - m
  {
    if x >= m {
      assert x == m + (x - m);
      assert x / m == 1;
    }
  }

  /** A step that leaves the FIFO's fields alone. */
  lemma RingQuiet(s: State, s': State)
    requires Ring(s)
    requires s'.slots == s.slots && s'.head == s.head && s'.tail == s.tail && s'.count == s.count
    requires s'.queue == s.queue && |s'.refs| == |s.refs|
    requires var h, h' := Holder(s), Holder(s');
             || h' == h
             || (!h.DqCount? && !h.QCount? && !h'.DqCount? && !h'.QCount? && !h'.QTail?
                 && (h'.DqTake? ==> s.queue != [])
                 && (h'.DqHead? ==> s.queue != [] && s.queue[0] == h'.buf)
                 && (h'.DqNull? ==> s.queue == []))
    ensures Ring(s')
  {
    hide Holder;
  }

  lemma RingStore(s: State, t: nat, b: Buf)
    requires Shaped(s) && Exclusion(s) && Ring(s) && t < |s.threads| && s.threads[t] == QStore(b)
    requires Holder(s) == s.threads[t] && Holder(Moved(s, t, false)) == QTail(b)
    ensures Ring(Moved(s, t, false))
  {
    var m, s' := |s.slots|, Moved(s, t, false);
    hide Holder;
    forall i | 0 <= i < |s.queue|
      ensures s'.slots[(s.head + i) % m] == s.queue[i]
    {
      Wrap(s.head + i, m);
      Wrap(s.head + |s.queue|, m);
    }
  }

  lemma RingTail(s: State, t: nat, b: Buf)
    requires Shaped(s) && Exclusion(s) && Ring(s) && t < |s.threads| && s.threads[t] == QTail(b)
    requires Holder(s) == s.threads[t] && Holder(Moved(s, t, false)) == QCount(b)
    requires |s.queue| < |s.refs|
    ensures Ring(Moved(s, t, false))
  {
    var m, s' := |s.slots|, Moved(s, t, false);
    hide Holder;
    Wrap(s.head + |s.queue|, m);
    Wrap(s.head + |s.queue| + 1, m);
    Wrap(s.tail + 1, m);
    forall i | 0 <= i < |s'.queue|
      ensures s'.slots[(s.head + i) % m] == s'.queue[i]
    {
    }
  }

  lemma RingHead(s: State, t: nat, b: Buf)
    requires Shaped(s) && Exclusion(s) && Ring(s) && t < |s.threads| && s.threads[t] == DqHead(b)
    requires Holder(s) == s.threads[t] && Holder(Moved(s, t, false)) == DqCount(b)
    ensures Ring(Moved(s, t, false))
  {
    var m, s' := |s.slots|, Moved(s, t, false);
    hide Holder;
    Wrap(s.head + 1, m);
    Wrap(s.head + |s.queue|, m);
    Wrap(s'.head + |s'.queue|, m);
    forall i | 0 <= i < |s'.queue|
      ensures s'.slots[(s'.head + i) % m] == s'.queue[i]
    {
      Wrap(s'.head + i, m);
      Wrap(s.head + (i + 1), m);
      assert s.slots[(s.head + (i + 1)) % m] == s.queue[i + 1];
    }
  }

  lemma RingTake(s: State, t: nat)
    requires Shaped(s) && Exclusion(s) && Ring(s) && t < |s.threads| && s.threads[t] == DqTake
    requires Holder(s) == s.threads[t]
    ensures s.queue != [] && s.slots[s.head] == s.queue[0]
  {
    hide Holder;
    Wrap(s.head + 0, |s.slots|);
    assert s.slots[(s.head + 0) % |s.slots|] == s.queue[0];
  }

  /** The steps that touch none of the FIFO's fields, and the program points they lead to. */
  lemma QuietMove(s: State, t: nat, timeout: bool)
    requires Shaped(s) && Enabled(s, Move(t, timeout))
    requires var pc := s.threads[t];
             !pc.QStore? && !pc.QTail? && !pc.QCount? && !pc.DqHead? && !pc.DqCount? && !pc.DqTake?
    ensures var s', pc := Moved(s, t, timeout), s.threads[t];
            && s'.slots == s.slots && s'.head == s.head && s'.tail == s.tail && s'.count == s.count
            && s'.queue == s.queue && |s'.refs| == |s.refs| && t < |s'.threads|
            && var pc' := s'.threads[t];
            && !pc'.DqCount? && !pc'.QCount? && !pc'.QTail? && !pc'.DqHead?
            && (pc'.DqTake? ==> pc.DqTest? && s.count > 0) && (pc'.DqNull? ==> pc.DqTest? && s.count <= 0)
  {
  }

  lemma RingQuietMove(s: State, t: nat, timeout: bool)
    requires Shaped(s) && Enabled(s, Move(t, timeout)) && Exclusion(s) && Ring(s)
    requires var pc := s.threads[t];
             !pc.QStore? && !pc.QTail? && !pc.QCount? && !pc.DqHead? && !pc.DqCount? && !pc.DqTake?
    ensures Ring(Moved(s, t, timeout))
  {
    var s' := Moved(s, t, timeout);
    MovedMutex(s, t, timeout);
    MutexStepKeeps(s, s', t);
    QuietMove(s, t, timeout);
    RingCount(s);
    hide *;
    RingQuiet(s, s');
  }

  lemma RingCount(s: State)
    requires Ring(s)
    ensures !Holder(s).DqCount? && !Holder(s).QCount? ==> s.count == |s.queue|
  {
  }

  lemma RingKept(s: State, t: nat, timeout: bool)
    requires Shaped(s) && Enabled(s, Move(t, timeout)) && Exclusion(s) && Ring(s)
    requires s.threads[t].QTail? ==> |s.queue| < |s.refs|
    ensures Ring(Moved(s, t, timeout))
  {
    var s' := Moved(s, t, timeout);
    MovedMutex(s, t, timeout);
    MutexStepKeeps(s, s', t);
    hide Holder, Exclusion, MutexStep;
    match s.threads[t]
    case QStore(b) => RingStore(s, t, b);
    case QTail(b) => RingTail(s, t, b);
    case DqHead(b) => RingHead(s, t, b);
    case DqTake =>
      RingTake(s, t);
      RingQuiet(s, s');
    case DqCount(b) =>
    case QCount(b) =>
    case _ => RingQuietMove(s, t, timeout);
  }

  // Places, permits and counts.

  /** A step passes at most one buffer on: into the queue, out of it, or to a client. */
  ghost predicate Passed(s: State, s': State, t: nat) {
    OneThread(s, s', t) && Handed(s, s', s.threads[t], s'.threads[t])
  }

  /** A step moves its own thread only, and brings no buffer to life. */
  ghost predicate OneThread(s: State, s': State, t: nat) {
    && t < |s.threads| == |s'.threads| && s'.threads == s.threads[t := s'.threads[t]]
    && s'.unborn == s.unborn
  }

  ghost predicate Handed(s: State, s': State, pc: Pc, pc': Pc) {
    match pc
    case QTail(b) => s'.queue == s.queue + [b] && pc' == QCount(b) && s'.refs == s.refs
    case DqHead(b) => s.queue == [b] + s'.queue && pc' == DqCount(b) && s'.refs == s.refs
    case DqRef(b) => s'.queue == s.queue && pc' == Idle && b < |s.refs| && s'.refs == s.refs[b := s.refs[b] + 1]
    case _ => s'.queue == s.queue && Hand(pc') == Hand(pc) && s'.refs == s.refs
  }

  lemma MovedThread(s: State, t: nat, timeout: bool)
    requires Shaped(s) && Enabled(s, Move(t, timeout))
    ensures OneThread(s, Moved(s, t, timeout), t)
  {
    assert s.threads[t].DqRef? ==> s.threads[t].buf < |s.refs|;
    assert s.head < |s.slots| && s.tail < |s.slots|;
    hide Shaped, Carried;
  }

  lemma TakerHanded(s: State, t: nat, timeout: bool)
    requires Shaped(s) && Enabled(s, Move(t, timeout))
    requires var pc := s.threads[t]; pc.DqTake? || pc.DqHead? || pc.DqCount? || pc.DqUnlock? || pc.DqPost? || pc.DqRef?
    requires s.threads[t].DqHead? ==> s.queue != [] && s.queue[0] == s.threads[t].buf
    ensures var s' := Moved(s, t, timeout); t < |s'.threads| && Handed(s, s', s.threads[t], s'.threads[t])
  {
    assert s.threads[t].DqRef? ==> s.threads[t].buf < |s.refs|;
    assert s.head < |s.slots|;
    hide Shaped;
  }

  lemma AdderHanded(s: State, t: nat, timeout: bool)
    requires Shaped(s) && Enabled(s, Move(t, timeout))
    requires var pc := s.threads[t]; pc.QWait? || pc.QLock? || pc.QStore? || pc.QTail? || pc.QCount? || pc.QUnlock?
    ensures var s' := Moved(s, t, timeout); t < |s'.threads| && Handed(s, s', s.threads[t], s'.threads[t])
  {
    assert s.tail < |s.slots|;
    hide Shaped;
  }

  lemma EmptyHanded(s: State, t: nat, timeout: bool)
    requires Shaped(s) && Enabled(s, Move(t, timeout))
    requires var pc := s.threads[t]; pc.DqLock? || pc.DqTest? || pc.DqWait? || pc.DqNull? || pc.DcLock? || pc.DcSet? || pc.DcUnlock?
    ensures var s' := Moved(s, t, timeout); t < |s'.threads| && Handed(s, s', s.threads[t], s'.threads[t])
  {
    hide Shaped;
  }

  lemma BufferPassed(s: State, t: nat, timeout: bool)
    requires Shaped(s) && Enabled(s, Move(t, timeout))
    requires s.threads[t].DqHead? ==> s.queue != [] && s.queue[0] == s.threads[t].buf
    ensures Passed(s, Moved(s, t, timeout), t)
  {
    hide Shaped, Moved, OneThread, Handed;
    MovedThread(s, t, timeout);
    var pc := s.threads[t];
    if pc.DqTake? || pc.DqHead? || pc.DqCount? || pc.DqUnlock? || pc.DqPost? || pc.DqRef? {
      TakerHanded(s, t, timeout);
    } else if pc.QWait? || pc.QLock? || pc.QStore? || pc.QTail? || pc.QCount? || pc.QUnlock? {
      AdderHanded(s, t, timeout);
    } else {
      EmptyHanded(s, t, timeout);
    }
  }

  lemma PlacesPassed(s: State, s': State, t: nat)
    requires Passed(s, s', t) && Places(s)
    requires s.threads[t].DqRef? ==> s.threads[t].buf < |s.refs| && s.refs[s.threads[t].buf] == 0
    ensures Places(s')
  {
    assert s'.unborn == s.unborn && |s'.refs| == |s.refs| && s'.threads == s.threads[t := s'.threads[t]];
    QueuePassed(s, s', t);
    assert multiset(s'.queue) + Carried(s'.threads[t]) + Held(s'.refs)
        == multiset(s.queue) + Carried(s.threads[t]) + Held(s.refs);
    hide *;
    PlacesMoved(s, s', t);
  }

  /** What a thread no longer carries is counted elsewhere. */
  lemma PlacesMoved(s: State, s': State, t: nat)
    requires Places(s) && t < |s.threads| == |s'.threads| && s'.threads == s.threads[t := s'.threads[t]]
    requires |s'.refs| == |s.refs|
    requires multiset(s'.queue) + Carried(s'.threads[t]) + Held(s'.refs) + s'.unborn
          == multiset(s.queue) + Carried(s.threads[t]) + Held(s.refs) + s.unborn
    ensures Places(s')
  {
    hide *;
    CarriedUpdate(s.threads, t, s'.threads[t]);
    Balance(multiset(s.queue), multiset(s'.queue), AllCarried(s.threads), AllCarried(s'.threads),
            Held(s.refs), Held(s'.refs), Carried(s.threads[t]), Carried(s'.threads[t]), s.unborn, s'.unborn);
    PlacesIs(s);
    PlacesIs(s');
  }

  lemma QueuePassed(s: State, s': State, t: nat)
    requires t < |s.threads| && Passed(s, s', t)
    requires s.threads[t].DqRef? ==> s.threads[t].buf < |s.refs| && s.refs[s.threads[t].buf] == 0
    ensures Around(s, s', t)
  {
    hide Passed, Around;
    var pc := s.threads[t];
    if pc.DqRef? {
      RefPassed(s, s', t);
    } else if pc.DqHead? {
      HeadPassed(s, s', t);
    } else if pc.QTail? {
      TailPassed(s, s', t);
    } else {
      RestPassed(s, s', t);
    }
  }

  lemma RefPassed(s: State, s': State, t: nat)
    requires t < |s.threads| && Passed(s, s', t) && s.threads[t].DqRef?
    requires s.threads[t].buf < |s.refs| && s.refs[s.threads[t].buf] == 0
    ensures Around(s, s', t)
  {
    var pc, pc' := s.threads[t], s'.threads[t];
    HandIs(pc);
    HandIs(pc');
    var b, q, refs, refs' := pc.buf, multiset(s.queue), s.refs, s'.refs;
    assert s'.queue == s.queue && refs' == refs[b := 1] && Hand(pc) == Some(b) && Hand(pc') == None;
    var c, c' := Carried(pc), Carried(pc');
    assert SameTotal(q, c, Held(refs), q, c', Held(refs')) by {
      hide *;
      HeldUp(refs, b);
      HandedOver(q, b, Held(refs), c, c', Held(refs'));
    }
    hide Held, Carried, SameTotal;
  }

  lemma HeadPassed(s: State, s': State, t: nat)
    requires t < |s.threads| && Passed(s, s', t) && s.threads[t].DqHead?
    ensures Around(s, s', t)
  {
    var pc, pc' := s.threads[t], s'.threads[t];
    HandIs(pc);
    HandIs(pc');
    hide Held, Carried, SameTotal;
    Dequeued(s.queue, s'.queue, pc'.buf, Held(s.refs), Carried(pc), Carried(pc'), Held(s'.refs));
  }

  lemma TailPassed(s: State, s': State, t: nat)
    requires t < |s.threads| && Passed(s, s', t) && s.threads[t].QTail?
    ensures Around(s, s', t)
  {
    var pc, pc' := s.threads[t], s'.threads[t];
    TailHanded(s, s', pc, pc');
    hide Held, Carried, SameTotal, Handed;
    Enqueued(s.queue, s'.queue, pc.buf, Held(s.refs), Carried(pc), Carried(pc'), Held(s'.refs));
  }

  lemma TailHanded(s: State, s': State, pc: Pc, pc': Pc)
    requires Handed(s, s', pc, pc') && pc.QTail?
    ensures s'.queue == s.queue + [pc.buf] && s'.refs == s.refs
    ensures Carried(pc) == multiset{pc.buf} && Carried(pc') == multiset{}
  {
    HandIs(pc);
    HandIs(pc');
    hide Carried;
  }

  lemma RestPassed(s: State, s': State, t: nat)
    requires t < |s.threads| && Passed(s, s', t) && !s.threads[t].DqRef? && !s.threads[t].DqHead? && !s.threads[t].QTail?
    ensures Around(s, s', t)
  {
    var pc, pc' := s.threads[t], s'.threads[t];
    HandIs(pc);
    HandIs(pc');
    hide Held, Carried, SameTotal;
    Quiet(multiset(s.queue), Carried(pc), Held(s.refs));
  }

  ghost predicate Around(s: State, s': State, t: nat) {
    && t < |s.threads| && t < |s'.threads|
    && SameTotal(multiset(s.queue), Carried(s.threads[t]), Held(s.refs),
                 multiset(s'.queue), Carried(s'.threads[t]), Held(s'.refs))
  }

  /** Buffers in the queue, in one thread's hands and with clients, before and after a step. */
  ghost predicate SameTotal(q: multiset<Buf>, c: multiset<Buf>, h: multiset<Buf>,
                            q': multiset<Buf>, c': multiset<Buf>, h': multiset<Buf>)
  {
    q' + c' + h' == q + c + h
  }

  lemma Quiet(q: multiset<Buf>, c: multiset<Buf>, h: multiset<Buf>)
    ensures SameTotal(q, c, h, q, c, h)
  {
  }

  lemma HandedOver(q: multiset<Buf>, b: Buf, h: multiset<Buf>, c: multiset<Buf>, c': multiset<Buf>, h': multiset<Buf>)
    requires c == multiset{b} && c' == multiset{} && h' == h + multiset{b}
    ensures SameTotal(q, c, h, q, c', h')
  {
  }

  lemma Dequeued(q: seq<Buf>, q': seq<Buf>, b: Buf, h: multiset<Buf>, c: multiset<Buf>, c': multiset<Buf>, h': multiset<Buf>)
    requires q == [b] + q' && c == multiset{} && c' == multiset{b} && h' == h
    ensures SameTotal(multiset(q), c, h, multiset(q'), c', h')
  {
    assert multiset(q) == multiset{b} + multiset(q');
  }

  lemma Enqueued(q: seq<Buf>, q': seq<Buf>, b: Buf, h: multiset<Buf>, c: multiset<Buf>, c': multiset<Buf>, h': multiset<Buf>)
    requires q' == q + [b] && c == multiset{b} && c' == multiset{} && h' == h
    ensures SameTotal(multiset(q), c, h, multiset(q'), c', h')
  {
    assert multiset(q') == multiset(q) + multiset{b};
  }

  lemma HandIs(pc: Pc)
    ensures Hand(pc).Some? ==> Carried(pc) == multiset{Hand(pc).value}
    ensures Hand(pc).None? ==> Carried(pc) == multiset{}
  {
  }

  lemma HeldUp(refs: seq<int>, b: nat)
    requires b < |refs| && refs[b] == 0
    ensures Held(refs[b := 1]) == Held(refs) + multiset{b}
  {
    HeldUpdate(refs, b, 1);
    hide Held;
    assert HeldOne(b, 0) == multiset{};
  }

  lemma PlacesIs(s: State)
    ensures Places(s) <==> multiset(s.queue) + AllCarried(s.threads) + Held(s.refs) + s.unborn == All(|s.refs|)
  {
    hide AllCarried, Held, All;
  }

  lemma Balance(q: multiset<Buf>, q': multiset<Buf>, a: multiset<Buf>, a': multiset<Buf>, h: multiset<Buf>,
                h': multiset<Buf>, c: multiset<Buf>, c': multiset<Buf>, u: multiset<Buf>, u': multiset<Buf>)
    requires q' + c' + h' + u' == q + c + h + u && a' + c == a + c'
    ensures q' + a' + h' + u' == q + a + h + u
  {
    forall x
      ensures (q' + a' + h' + u')[x] == (q + a + h + u)[x]
    {
      assert (q' + c' + h' + u')[x] == (q + c + h + u)[x];
      assert (a' + c)[x] == (a + c')[x];
    }
  }

  lemma PlacesKept(s: State, t: nat, timeout: bool)
    requires Shaped(s) && Enabled(s, Move(t, timeout)) && Places(s) && Counts(s)
    requires s.threads[t].DqHead? ==> s.queue != [] && s.queue[0] == s.threads[t].buf
    ensures Places(Moved(s, t, timeout))
  {
    if s.threads[t].DqRef? {
      CarriedFree(s, t, s.threads[t].buf);
    }
    hide Moved, Places, Counts, Passed, Carried, Shaped;
    BufferPassed(s, t, timeout);
    PlacesPassed(s, Moved(s, t, timeout), t);
  }

  lemma Cancel(a: multiset<Buf>, b: multiset<Buf>, c: multiset<Buf>)
    requires a + c == b + c
    ensures a == b
  {
    assert a == (a + c) - c;
    assert b == (b + c) - c;
  }

  /** A step trades permits, queued elements and operations in flight one for one. */
  lemma PermitPassed(s: State, t: nat, timeout: bool)
    requires Shaped(s) && Enabled(s, Move(t, timeout))
    requires s.threads[t].DqHead? ==> s.queue != []
    ensures var s' := Moved(s, t, timeout);
            && |s'.threads| == |s.threads| && s'.threads == s.threads[t := s'.threads[t]] && |s'.refs| == |s.refs|
            && s'.permits + |s'.queue| + Charged(s'.threads[t]) == s.permits + |s.queue| + Charged(s.threads[t])
  {
  }

  lemma PermitsKept(s: State, t: nat, timeout: bool)
    requires Shaped(s) && Enabled(s, Move(t, timeout)) && Permits(s)
    requires s.threads[t].DqHead? ==> s.queue != []
    ensures Permits(Moved(s, t, timeout))
  {
    var s' := Moved(s, t, timeout);
    PermitPassed(s, t, timeout);
    ChargedUpdate(s.threads, t, s'.threads[t]);
    hide AllCharged, Moved, Enabled, Shaped, Charged;
  }

  lemma CountsKept(s: State, t: nat, timeout: bool)
    requires Shaped(s) && Enabled(s, Move(t, timeout)) && Counts(s) && Places(s)
    ensures Counts(Moved(s, t, timeout))
  {
    hide Places;
  }

  lemma FifoKept(s: State, t: nat, timeout: bool)
    requires Shaped(s) && Enabled(s, Move(t, timeout)) && Fifo(s)
    requires s.threads[t].DqHead? ==> s.queue != [] && s.queue[0] == s.threads[t].buf
    ensures Fifo(Moved(s, t, timeout))
  {
    match s.threads[t]
    case DqHead(b) =>
      assert s.queue == [b] + s.queue[1..];
    case QTail(b) =>
    case _ =>
  }

  /** What the mutex holder knows of the queue. */
  lemma HolderFacts(s: State, t: nat)
    requires Exclusion(s) && Ring(s) && Permits(s) && t < |s.threads|
    ensures s.threads[t].DqHead? ==> s.queue != [] && s.queue[0] == s.threads[t].buf
    ensures s.threads[t].QTail? ==> |s.queue| < |s.refs|
  {
    CarriedOne(s.threads, t);
    assert InSection(s.threads[t]) ==> Holder(s) == s.threads[t];
  }

  lemma MoveKeeps(s: State, t: nat, timeout: bool)
    requires Inv(s) && Shaped(s) && Enabled(s, Move(t, timeout))
    ensures Inv(Moved(s, t, timeout))
  {
    var s' := Moved(s, t, timeout);
    MovedMutex(s, t, timeout);
    MutexStepKeeps(s, s', t);
    HolderFacts(s, t);
    RingKept(s, t, timeout);
    PlacesKept(s, t, timeout);
    PermitsKept(s, t, timeout);
    CountsKept(s, t, timeout);
    FifoKept(s, t, timeout);
    hide Moved, Shaped, Exclusion, Ring, Places, Permits, Counts, Fifo;
  }

  // Calls that start, and clones of a handle.

  /** A call starts on an idle thread, outside the critical section, and touches nothing of the FIFO. */
  lemma CallQuiet(s: State, s': State, t: nat)
    requires Exclusion(s) && Ring(s) && Fifo(s) && Permits(s) && t < |s.threads| && s.threads[t].Idle?
    requires |s'.threads| == |s.threads| && s'.threads == s.threads[t := s'.threads[t]]
    requires !InSection(s'.threads[t]) && Charged(s'.threads[t]) == 0
    requires s'.mutex == s.mutex && s'.slots == s.slots && s'.head == s.head && s'.tail == s.tail && s'.count == s.count
    requires s'.queue == s.queue && |s'.refs| == |s.refs| && s'.permits == s.permits
    requires s'.arrived == s.arrived && s'.left == s.left
    ensures Exclusion(s') && Ring(s') && Fifo(s') && Permits(s')
  {
    assert MutexStep(s, s', t);
    MutexStepKeeps(s, s', t);
    ChargedUpdate(s.threads, t, s'.threads[t]);
    hide Exclusion, Holder, AllCharged, MutexStep;
    RingQuiet(s, s');
  }

  lemma UnrefCounts(s: State, t: nat, b: Buf)
    requires Shaped(s) && Enabled(s, Unref(t, b)) && Counts(s)
    ensures Counts(Apply(s, Unref(t, b))) && b < |s.refs| && s.refs[b] >= 1
  {
    assert s.handles[b] >= 1;
  }

  lemma UnrefPlaces(s: State, t: nat, b: Buf)
    requires Shaped(s) && Enabled(s, Unref(t, b)) && Places(s) && b < |s.refs| && s.refs[b] >= 1
    ensures Places(Apply(s, Unref(t, b)))
  {
    hide *;
    UnrefEffect(s, t, b);
    var s', n := Apply(s, Unref(t, b)), s.refs[b];
    HeldDown(s.refs, b);
    LastHandle(multiset(s.queue), Held(s.refs), Held(s'.refs), s.unborn, b, n > 1);
    PlacesMoved(s, s', t);
  }

  lemma UnrefEffect(s: State, t: nat, b: Buf)
    requires Shaped(s) && Enabled(s, Unref(t, b))
    ensures b < |s.refs| && t < |s.threads|
    ensures var s', n := Apply(s, Unref(t, b)), s.refs[b];
            && s'.queue == s.queue && s'.unborn == s.unborn && s'.refs == s.refs[b := n - 1]
            && |s'.threads| == |s.threads| && s'.threads == s.threads[t := s'.threads[t]]
            && Carried(s.threads[t]) == multiset{} && Carried(s'.threads[t]) == if n > 1 then multiset{} else multiset{b}
  {
  }

  lemma RefEffect(s: State, b: Buf)
    requires Shaped(s) && Enabled(s, Ref(b))
    ensures b < |s.refs|
    ensures var s' := Apply(s, Ref(b));
            s'.queue == s.queue && s'.threads == s.threads && s'.unborn == s.unborn && s'.refs == s.refs[b := s.refs[b] + 1]
  {
  }

  lemma LastHandle(q: multiset<Buf>, h: multiset<Buf>, h': multiset<Buf>, u: multiset<Buf>, b: Buf, more: bool)
    requires if more then h' == h else h' + multiset{b} == h
    ensures q + (if more then multiset{} else multiset{b}) + h' + u == q + multiset{} + h + u
  {
    forall x
      ensures (q + (if more then multiset{} else multiset{b}) + h' + u)[x] == (q + multiset{} + h + u)[x]
    {
      if !more {
        assert (h' + multiset{b})[x] == h[x];
      }
    }
  }

  /** Dropping a reference lets go of the buffer exactly when it was the last. */
  lemma HeldDown(refs: seq<int>, b: nat)
    requires b < |refs| && refs[b] >= 1
    ensures refs[b] > 1 ==> Held(refs[b := refs[b] - 1]) == Held(refs)
    ensures refs[b] == 1 ==> Held(refs[b := refs[b] - 1]) + multiset{b} == Held(refs)
  {
    var refs' := refs[b := refs[b] - 1];
    HeldUpdate(refs, b, refs[b] - 1);
    HeldOneIs(b, refs[b]);
    HeldOneIs(b, refs[b] - 1);
    hide *;
    if refs[b] > 1 {
      Cancel(Held(refs'), Held(refs), multiset{b});
    } else {
      assert Held(refs) + multiset{} == Held(refs);
    }
  }

  lemma HeldOneIs(b: Buf, n: int)
    ensures HeldOne(b, n) == if n > 0 then multiset{b} else multiset{}
  {
  }

  lemma HeldMore(refs: seq<int>, b: nat)
    requires b < |refs| && refs[b] >= 1
    ensures Held(refs[b := refs[b] + 1]) == Held(refs)
  {
    var refs' := refs[b := refs[b] + 1];
    HeldUpdate(refs, b, refs[b] + 1);
    HeldOneIs(b, refs[b]);
    HeldOneIs(b, refs[b] + 1);
    hide *;
    Cancel(Held(refs'), Held(refs), multiset{b});
  }

  lemma RefPlaces(s: State, b: Buf)
    requires Shaped(s) && Enabled(s, Ref(b)) && Places(s) && b < |s.refs| && s.refs[b] >= 1
    ensures Places(Apply(s, Ref(b)))
  {
    hide *;
    RefEffect(s, b);
    var s' := Apply(s, Ref(b));
    HeldMore(s.refs, b);
    PlacesIs(s);
    PlacesIs(s');
  }

  lemma RefQuiet(s: State, b: Buf)
    requires Shaped(s) && Enabled(s, Ref(b)) && Exclusion(s) && Ring(s) && Permits(s) && Fifo(s)
    ensures var s' := Apply(s, Ref(b)); Exclusion(s') && Ring(s') && Permits(s') && Fifo(s')
  {
    hide Ring, AllCharged, InSection;
    RingQuiet(s, Apply(s, Ref(b)));
  }

  lemma RefCounts(s: State, b: Buf)
    requires Shaped(s) && Enabled(s, Ref(b)) && Counts(s)
    ensures Counts(Apply(s, Ref(b))) && b < |s.refs| && s.refs[b] >= 1
  {
    assert s.handles[b] >= 1;
  }

  lemma AddPlaces(s: State, t: nat, b: Buf)
    requires Shaped(s) && Enabled(s, Add(t, b)) && Places(s)
    ensures Places(Apply(s, Add(t, b)))
  {
    var s' := Apply(s, Add(t, b));
    assert s'.threads == s.threads[t := s'.threads[t]];
    Arrives(multiset(s.queue), Held(s.refs), s.unborn, b);
    hide *;
    PlacesMoved(s, s', t);
  }

  lemma Arrives(q: multiset<Buf>, h: multiset<Buf>, u: multiset<Buf>, b: Buf)
    requires b in u
    ensures q + multiset{b} + h + (u - multiset{b}) == q + multiset{} + h + u
  {
    assert u == u - multiset{b} + multiset{b};
  }

  lemma StartPlaces(s: State, t: nat, pc: Pc)
    requires t < |s.threads| && s.threads[t].Idle? && Carried(pc) == multiset{} && Places(s)
    ensures Places(At(s, t, pc))
  {
    assert Carried(s.threads[t]) == multiset{};
    assert At(s, t, pc) == s.(threads := s.threads[t := pc]);
    hide *;
    PlacesMoved(s, At(s, t, pc), t);
  }

  lemma GetKeeps(s: State, t: nat)
    requires Inv(s) && Shaped(s) && Enabled(s, Get(t))
    ensures Inv(Apply(s, Get(t)))
  {
    CallQuiet(s, Apply(s, Get(t)), t);
    StartPlaces(s, t, DqLock(false));
    SameCounts(s, Apply(s, Get(t)));
    hide Exclusion, Ring, Places, Permits, Counts, Fifo;
  }

  lemma DecommitKeeps(s: State, t: nat)
    requires Inv(s) && Shaped(s) && Enabled(s, Decommit(t))
    ensures Inv(Apply(s, Decommit(t)))
  {
    CallQuiet(s, Apply(s, Decommit(t)), t);
    StartPlaces(s, t, DcLock);
    SameCounts(s, Apply(s, Decommit(t)));
    hide Exclusion, Ring, Places, Permits, Counts, Fifo;
  }

  lemma AddKeeps(s: State, t: nat, b: Buf)
    requires Inv(s) && Shaped(s) && Enabled(s, Add(t, b))
    ensures Inv(Apply(s, Add(t, b)))
  {
    CallQuiet(s, Apply(s, Add(t, b)), t);
    AddPlaces(s, t, b);
    SameCounts(s, Apply(s, Add(t, b)));
    hide Exclusion, Ring, Places, Permits, Counts, Fifo;
  }

  lemma UnrefKeeps(s: State, t: nat, b: Buf)
    requires Inv(s) && Shaped(s) && Enabled(s, Unref(t, b))
    ensures Inv(Apply(s, Unref(t, b)))
  {
    CallQuiet(s, Apply(s, Unref(t, b)), t);
    UnrefCounts(s, t, b);
    UnrefPlaces(s, t, b);
    hide Exclusion, Ring, Places, Permits, Counts, Fifo;
  }

  lemma RefKeeps(s: State, b: Buf)
    requires Inv(s) && Shaped(s) && Enabled(s, Ref(b))
    ensures Inv(Apply(s, Ref(b)))
  {
    RefCounts(s, b);
    RefPlaces(s, b);
    RefQuiet(s, b);
    hide Exclusion, Ring, Places, Permits, Counts, Fifo;
  }

  lemma SameCounts(s: State, s': State)
    requires Counts(s) && s'.refs == s.refs && s'.handles == s.handles
    ensures Counts(s')
  {
  }

  /** Whatever happens next keeps the invariant. */
  lemma StepKeeps(s: State, e: Event)
    requires Inv(s) && Enabled(s, e)
    ensures Shaped(s) && Inv(Apply(s, e))
  {
    hide Exclusion, Ring, Places, Permits, Counts, Fifo, Shaped, Inv;
    InvShaped(s);
    match e
    case Get(t) => GetKeeps(s, t);
    case Decommit(t) => DecommitKeeps(s, t);
    case Add(t, b) => AddKeeps(s, t, b);
    case Unref(t, b) => UnrefKeeps(s, t, b);
    case Ref(b) => RefKeeps(s, b);
    case Move(t, timeout) => MoveKeeps(s, t, timeout);
  }

  // ---------------------------------------------------------------------------------------------
  // Every run
  // ---------------------------------------------------------------------------------------------

  /** s is reached from a fresh pool of n buffers by these events, latest first. */
  ghost predicate Reached(s: State, n: nat, threads: nat, events: seq<Event>)
    decreases |events|
  {
    if events == [] then s == Initial(n, threads)
    else exists before: State :: Reached(before, n, threads, events[1..]) && Leads(before, events[0], s)
  }

  ghost predicate Leads(before: State, e: Event, s: State) {
    Shaped(before) && Enabled(before, e) && s == Apply(before, e)
  }

  lemma InitialInv(n: nat, threads: nat)
    ensures Inv(Initial(n, threads))
  {
    var s := Initial(n, threads);
    NothingCarried(threads);
    NothingHeld(n);
    assert Ring(s) by {
      assert 0 % (n + 1) == 0;
    }
    hide All, Held, AllCarried, AllCharged;
  }

  lemma {:induction false} NothingCarried(n: nat)
    ensures AllCarried(seq(n, _ => Idle)) == multiset{} && AllCharged(seq(n, _ => Idle)) == 0
  {
    if n > 0 {
      var s: seq<Pc> := seq(n, _ => Idle);
      NothingCarried(n - 1);
      assert s[..n - 1] == seq(n - 1, _ => Idle);
    }
  }

  lemma {:induction false} NothingHeld(n: nat)
    ensures Held(seq(n, _ => 0)) == multiset{}
  {
    if n > 0 {
      var s: seq<int> := seq(n, _ => 0);
      NothingHeld(n - 1);
      assert s[..n - 1] == seq(n - 1, _ => 0);
    }
  }

  /** In every interleaving the invariant holds, for the same pool of buffers. */
  lemma {:induction false} EveryRun(s: State, n: nat, threads: nat, events: seq<Event>)
    requires Reached(s, n, threads, events)
    ensures Inv(s) && |s.refs| == n && |s.threads| == threads
    decreases |events|
  {
    hide Inv, Enabled, Shaped;
    if events == [] {
      InitialInv(n, threads);
    } else {
      var before: State :| Reached(before, n, threads, events[1..]) && Leads(before, events[0], s);
      EveryRun(before, n, threads, events[1..]);
      StepKeeps(before, events[0]);
      SameSizes(before, events[0]);
    }
  }

  lemma SameSizes(s: State, e: Event)
    requires Shaped(s) && Enabled(s, e)
    ensures |Apply(s, e).refs| == |s.refs| && |Apply(s, e).threads| == |s.threads|
  {
    hide Moved;
    if e.Move? {
      MovedSizes(s, e.t, e.timeout);
    }
  }

  lemma MovedSizes(s: State, t: nat, timeout: bool)
    requires Shaped(s) && Enabled(s, Move(t, timeout))
    ensures |Moved(s, t, timeout).refs| == |s.refs| && |Moved(s, t, timeout).threads| == |s.threads|
  {
    assert s.threads[t].DqRef? ==> s.threads[t].buf < |s.refs|;
  }

  /** Each buffer is in exactly one place at any time. */
  lemma OnePlace(s: State, b: Buf)
    requires Inv(s) && b < |s.refs|
    ensures multiset(s.queue)[b] + AllCarried(s.threads)[b] + (if s.refs[b] > 0 then 1 else 0) + s.unborn[b] == 1
  {
    AllOnce(|s.refs|, b);
    HeldCount(s.refs, b);
    assert (multiset(s.queue) + AllCarried(s.threads) + Held(s.refs) + s.unborn)[b] == All(|s.refs|)[b];
  }

  lemma {:induction false} HeldCount(refs: seq<int>, b: nat)
    ensures Held(refs)[b] == if b < |refs| && refs[b] > 0 then 1 else 0
  {
    if refs != [] {
      HeldCount(refs[..|refs| - 1], b);
    }
  }

  /** Buffers carried without a permit taken for them: about to be queued, or about to be handed out. */
  lemma {:induction false} CarriedBeyondCharged(threads: seq<Pc>, t: nat)
    requires t < |threads|
    ensures |AllCarried(threads)| >= AllCharged(threads) + if threads[t].QWait? then 1 else 0
  {
    var n := |threads| - 1;
    CarriedSize(threads[n]);
    CarriedAtLeast(threads[..n]);
    hide Carried, Charged;
    if t < n {
      CarriedBeyondCharged(threads[..n], t);
    }
    assert |AllCarried(threads)| == |AllCarried(threads[..n])| + |Carried(threads[n])|;
  }

  lemma CarriedSize(pc: Pc)
    ensures |Carried(pc)| >= Charged(pc) + if pc.QWait? then 1 else 0
  {
  }

  lemma {:induction false} CarriedAtLeast(threads: seq<Pc>)
    ensures |AllCarried(threads)| >= AllCharged(threads)
  {
    if threads != [] {
      var n := |threads| - 1;
      CarriedSize(threads[n]);
      hide Carried, Charged;
      CarriedAtLeast(threads[..n]);
      assert |AllCarried(threads)| == |AllCarried(threads[..n])| + |Carried(threads[n])|;
    }
  }

  /** A buffer coming back (or being added) never waits for space: the last Unref does not block. */
  lemma QueueNeverBlocks(s: State, t: nat)
    requires Inv(s) && t < |s.threads| && s.threads[t].QWait?
    ensures s.permits > 0
  {
    CarriedBeyondCharged(s.threads, t);
    AllSize(|s.refs|);
    hide AllCarried, AllCharged, Held, All, Exclusion, Ring;
    assert |multiset(s.queue) + AllCarried(s.threads) + Held(s.refs) + s.unborn|
        == |s.queue| + |AllCarried(s.threads)| + |Held(s.refs)| + |s.unborn|;
  }

  /** NULL is decided only at an instant when the queue is empty, decommitted or not, and only after
      a failed wait or a decommit. */
  lemma NullMeansEmpty(s: State, t: nat, timeout: bool)
    requires Inv(s) && Shaped(s) && Enabled(s, Move(t, timeout))
    requires s.threads[t].DqTest?
    ensures Moved(s, t, timeout).threads[t].DqNull? <==> s.queue == [] && (s.threads[t].failed || s.decommitted)
  {
    assert Holder(s) == s.threads[t];
  }

  /** Elements leave in arrival order: what left is a beginning of what arrived, the rest is the queue. */
  lemma ArrivalOrder(s: State)
    requires Inv(s)
    ensures s.left <= s.arrived && s.arrived[|s.left|..] == s.queue
  {
  }

  /** No deadlock: whenever a thread is in the middle of a call, other than waiting for an element, it or
      the holder of the mutex can make its next step. */
  lemma SomeoneMoves(s: State, t: nat)
    requires Inv(s) && t < |s.threads| && !s.threads[t].Idle?
    ensures Enabled(s, Move(t, true)) || (s.mutex.Some? && Enabled(s, Move(s.mutex.value, true)))
  {
    if s.threads[t].QWait? {
      QueueNeverBlocks(s, t);
    } else if s.mutex.Some? {
      assert InSection(s.threads[s.mutex.value]);
    }
  }
}
