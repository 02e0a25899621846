/** What the queue promises over whole runs, for any number of threads, any schedule, any
    spurious wakeups and any choice of allocator, if callers observe what they have to. */
module QueueTheorems {
  import opened Basics
  import opened Fifo
  import opened QueueMachine
  import opened QueueInvariants
  import opened QueueHistory

  // ================================================================ refinement

  function Abs(s: State): Queue { Queue(s.h.items, s.m.closed) }

  /** The visible outcome of a statement, read off the concrete memory alone. */
  function EventOf(m: Mem, me: Thread, c: Choice): Event
    requires CanStep(m, me, c)
  {
    match me.pc
    case Enq(e, _, r) => if e.ECheck? && m.closed then Reject(r) else if e.ELink? then Accept(r) else Internal
    case Deq(d, n, _) =>
      if d.DDecide? && m.front.Null? && m.closed then TakeNull
      else if d.DFront? then Take(m.heap[n].data) else Internal
    case Clo(k) => if k.CSet? then Shut else Internal
    case Ask(q, a, _) => if !a.ARead? then Internal else if q.Size? then SawSize(m.size) else SawClosed(m.closed)
    case _ => Internal
  }

  lemma EnqRefines(m: Mem, h: Hist, me: Thread, c: Choice)
    requires me.pc.Enq? && CanStep(m, me, c) && Knows(m, h, me.pc)
    ensures var o, q := EnqStep(m, h, me, c), Queue(h.items, m.closed); var e := EventOf(m, me, c);
      Allows(q, e) && Apply(q, e) == Queue(o.h.items, o.m.closed)
  {
  }

  lemma UnlinkRefines(m: Mem, h: Hist, t: Tid, me: Thread, c: Choice)
    requires me.pc.Deq? && me.pc.d.DFront? && CanStep(m, me, c)
    requires h.items != [] && h.fifo != [] && m.heap[me.pc.node].data == h.items[0]
    ensures var o, q := DeqStep(m, h, t, me), Queue(h.items, m.closed); var e := EventOf(m, me, c);
      Allows(q, e) && Apply(q, e) == Queue(o.h.items, o.m.closed)
  {
  }

  lemma DeqRefines(m: Mem, h: Hist, t: Tid, me: Thread, c: Choice)
    requires me.pc.Deq? && CanStep(m, me, c) && (m.front.Null? <==> h.items == [])
    requires me.pc.d.DFront? ==> h.items != [] && h.fifo != [] && m.heap[me.pc.node].data == h.items[0]
    ensures var o, q := DeqStep(m, h, t, me), Queue(h.items, m.closed); var e := EventOf(m, me, c);
      Allows(q, e) && Apply(q, e) == Queue(o.h.items, o.m.closed)
  {
    if me.pc.d.DFront? {
      UnlinkRefines(m, h, t, me, c);
    }
  }

  lemma OtherRefines(m: Mem, h: Hist, t: Tid, me: Thread, c: Choice)
    requires !me.pc.Enq? && !me.pc.Deq? && CanStep(m, me, c) && Knows(m, h, me.pc)
    requires me.pc.Ask? && InLock(me.pc) ==> m.size == |h.items|
    ensures var o, q := Local(m, h, t, me, c), Queue(h.items, m.closed); var e := EventOf(m, me, c);
      Allows(q, e) && Apply(q, e) == Queue(o.h.items, o.m.closed)
  {
  }

  /** Every step is a step of the atomic FIFO with the outcome the code produces. */
  lemma StepRefines(s: State, t: Tid, c: Choice)
    requires Inv(s) && Runs(s, t, c)
    ensures var e := EventOf(s.m, s.threads[t], c); Allows(Abs(s), e) && Apply(Abs(s), e) == Abs(Next(s, t, c))
  {
    var me := s.threads[t];
    assert Knows(s.m, s.h, me.pc);
    if me.pc.Enq? {
      EnqRefines(s.m, s.h, me, c);
    } else if me.pc.Deq? {
      DeqRefines(s.m, s.h, t, me, c);
    } else {
      assert InLock(me.pc) ==> OwnerPc(s) == me.pc;
      OtherRefines(s.m, s.h, t, me, c);
    }
  }

  /** The outcomes of a run, in the order they happen. */
  ghost function Outcomes(s: State, sched: seq<(Tid, Choice)>): seq<Event>
    requires Valid(s, sched)
    decreases |sched|
  {
    if sched == [] then []
    else
      var n := |sched| - 1;
      var mid := Final(s, sched[..n]);
      Outcomes(s, sched[..n]) + [EventOf(mid.m, mid.threads[sched[n].0], sched[n].1)]
  }

  /** Linearizability: whatever the interleaving of the individual reads and writes, the
      outcomes form a history of the atomic FIFO. */
  lemma {:induction false} RunRefines(s: State, sched: seq<(Tid, Choice)>)
    requires Inv(s) && Valid(s, sched) && Courteous(s, sched)
    ensures Legal(Abs(s), Outcomes(s, sched)) && After(Abs(s), Outcomes(s, sched)) == Abs(Final(s, sched))
  {
    if sched == [] {
    } else {
      var n := |sched| - 1;
      RunRefines(s, sched[..n]);
      RunInv(s, sched[..n]);
      StepRefines(Final(s, sched[..n]), sched[n].0, sched[n].1);
      assert Outcomes(s, sched)[..n] == Outcomes(s, sched[..n]) by { OutcomesLength(s, sched[..n]); }
    }
  }

  /** For a new queue, said without an abstract state: each outcome of a run fits the outcomes
      before it. */
  lemma OutcomesFit(s0: State, sched: seq<(Tid, Choice)>)
    requires Init(s0) && Valid(s0, sched) && Courteous(s0, sched)
    ensures AllFitting(Outcomes(s0, sched))
  {
    InitInv(s0);
    RunRefines(s0, sched);
    LegalIffFitting(Outcomes(s0, sched));
  }

  lemma {:induction false} OutcomesLength(s: State, sched: seq<(Tid, Choice)>)
    requires Valid(s, sched)
    ensures |Outcomes(s, sched)| == |sched|
  {
    if sched != [] { OutcomesLength(s, sched[..|sched| - 1]); }
  }

  /** The nodes one meets by following at most `n` pointers from `p`. */
  function Walk(heap: map<NodeId, Cell>, p: Ptr, n: nat): seq<NodeId>
    decreases n
  {
    if n == 0 || p.Null? || p.id !in heap then [] else [p.id] + Walk(heap, heap[p.id].next, n - 1)
  }

  lemma {:induction false} WalkChain(heap: map<NodeId, Cell>, fifo: seq<NodeId>, items: seq<Request>, i: nat, n: nat)
    requires Chain(heap, fifo, items) && i <= |fifo| && n >= |fifo| - i
    ensures Walk(heap, At(fifo, i), n) == fifo[i..]
    decreases |fifo| - i
  {
    if i < |fifo| {
      WalkChain(heap, fifo, items, i + 1, n - 1);
      FirstAndRest(fifo, i);
    }
  }

  lemma FirstAndRest(s: seq<NodeId>, i: nat)
    requires i < |s|
    ensures s[i..] == [s[i]] + s[i + 1..]
  {
  }

  /** Whenever the lock is free the pointers in memory spell out the abstract queue: the nodes
      one meets from `front`, however far one walks, are distinct and carry its items in order,
      `rear` is the last of them, NULL exactly if there are none, and `size` is their number. */
  lemma AtRest(s0: State, sched: seq<(Tid, Choice)>, n: nat)
    requires Init(s0) && Valid(s0, sched) && Courteous(s0, sched)
    ensures var s := Final(s0, sched); s.owner.None? && n >= |Abs(s).items| ==>
      var nodes := Walk(s.m.heap, s.m.front, n);
      && |nodes| == |Abs(s).items| == s.m.size
      && (forall i :: 0 <= i < |nodes| ==> nodes[i] in s.m.heap && s.m.heap[nodes[i]].data == Abs(s).items[i])
      && (forall i, j :: 0 <= i < j < |nodes| ==> nodes[i] != nodes[j])
      && s.m.rear == Last(nodes)
  {
    InitInv(s0);
    RunInv(s0, sched);
    var s := Final(s0, sched);
    if s.owner.None? && n >= |s.h.items| {
      WalkChain(s.m.heap, s.h.fifo, s.h.items, 0, n);
    }
  }

  // ================================================================ memory

  ghost predicate OwnedBy(s: State, t: Tid, n: NodeId) {
    t < |s.threads| && Private(s.threads[t].pc) == To(n)
  }

  /** Every allocated node is either linked or private to exactly one thread, never both. */
  ghost predicate OneOwnerEach(s: State) {
    && (forall n :: n in s.h.fifo ==> n in s.m.heap)
    && (forall n, t :: OwnedBy(s, t, n) ==> n in s.m.heap && n !in s.h.fifo)
    && (forall n :: n in s.m.heap && n !in s.h.fifo ==> exists t :: OwnedBy(s, t, n))
    && (forall n, t, u :: OwnedBy(s, t, n) && OwnedBy(s, u, n) ==> t == u)
  }

  lemma Owners(s: State)
    requires SafeInv(s)
    ensures OneOwnerEach(s)
  {
    forall n: NodeId, t: Tid | OwnedBy(s, t, n) ensures n in s.m.heap && n !in s.h.fifo {
      assert Knows(s.m, s.h, s.threads[t].pc);
    }
    forall n | n in s.m.heap && n !in s.h.fifo ensures exists t :: OwnedBy(s, t, n) {
      var t :| 0 <= t < |s.threads| && Private(s.threads[t].pc) == To(n);
      assert OwnedBy(s, t, n);
    }
  }

  /** No thread ever touches freed memory or NULL, and every node always has one owner. */
  lemma MemorySafe(s0: State, sched: seq<(Tid, Choice)>)
    requires Init(s0) && Valid(s0, sched) && Courteous(s0, sched)
    ensures var s := Final(s0, sched);
      && (forall t :: 0 <= t < |s.threads| ==> !Faults(s.m, s.threads[t].pc))
      && OneOwnerEach(s)
  {
    InitInv(s0);
    RunInv(s0, sched);
    var s := Final(s0, sched);
    Owners(s);
    forall t | 0 <= t < |s.threads| ensures !Faults(s.m, s.threads[t].pc) { NoFault(s, t); }
  }

  // ================================================================ wakeups

  lemma {:induction false} SomeWoken(ts: seq<Thread>)
    requires Woken(ts) > 0
    ensures exists t :: 0 <= t < |ts| && IsWoken(ts[t].pc)
  {
    var n := |ts| - 1;
    if !IsWoken(ts[n].pc) {
      SomeWoken(ts[..n]);
      var t :| 0 <= t < n && IsWoken(ts[..n][t].pc);
      assert IsWoken(ts[t].pc);
    }
  }

  /** Whenever the lock is free and somebody sleeps, the queue is open and each item in it is
      matched by a thread that has been woken and is still to re-check.  So a non-empty queue
      never leaves all its consumers asleep, and a closed one leaves none. */
  ghost predicate WakesEnough(s: State) {
    s.owner.None? && AnyAsleep(s.threads) ==>
      && !s.m.closed
      && |Abs(s).items| <= Woken(s.threads)
      && (Abs(s).items != [] ==> exists t :: 0 <= t < |s.threads| && IsWoken(s.threads[t].pc))
  }

  lemma EnoughWoken(s: State)
    requires Inv(s)
    ensures WakesEnough(s)
  {
    if s.owner.None? && AnyAsleep(s.threads) && Abs(s).items != [] {
      SomeWoken(s.threads);
    }
  }

  /** No lost wakeup, in any run. */
  lemma NoLostWakeup(s0: State, sched: seq<(Tid, Choice)>)
    requires Init(s0) && Valid(s0, sched) && Courteous(s0, sched)
    ensures WakesEnough(Final(s0, sched))
  {
    InitInv(s0);
    RunInv(s0, sched);
    EnoughWoken(Final(s0, sched));
  }

  // ================================================================ requests

  /** The requests that callers hand to `queue_enqueue`, read off the schedule alone. */
  function SubmitsOf(sched: seq<(Tid, Choice)>): seq<Request> {
    if sched == [] then []
    else SubmitsOf(sched[..|sched| - 1]) + HandedOver(sched[|sched| - 1].1)
  }

  function HandedOver(c: Choice): seq<Request> { if c.Submit? then [c.req] else [] }

  lemma StepSubmits(s: State, t: Tid, c: Choice)
    requires CanRun(s, t, c)
    ensures Next(s, t, c).h.submitted == s.h.submitted + HandedOver(c)
  {
  }

  /** What the history calls submitted is what the callers have handed over, unchanged and in
      that order. */
  lemma {:induction false} SubmittedByCallers(s: State, sched: seq<(Tid, Choice)>)
    requires Valid(s, sched)
    ensures Final(s, sched).h.submitted == s.h.submitted + SubmitsOf(sched)
  {
    if sched != [] {
      var n := |sched| - 1;
      SubmittedByCallers(s, sched[..n]);
      StepSubmits(Final(s, sched[..n]), sched[n].0, sched[n].1);
    }
  }

  /** All threads stand still outside the queue. */
  predicate AllOutside(s: State) { forall t :: 0 <= t < |s.threads| ==> Outside(s.threads[t].pc) }

  /** The requests executed by all threads. */
  function Executed(ts: seq<Thread>): seq<Request> {
    if ts == [] then [] else Executed(ts[..|ts| - 1]) + ts[|ts| - 1].ran
  }

  lemma {:induction false} OccConcat(s: seq<Request>, t: seq<Request>, x: Request)
    ensures Occ(s + t, x) == Occ(s, x) + Occ(t, x)
  {
    if t == [] {
      assert s + t == s;
    } else {
      OccConcat(s, t[..|t| - 1], x);
      assert s + t == (s + t[..|t| - 1]) + [t[|t| - 1]];
      OccSnoc(s + t[..|t| - 1], t[|t| - 1], x);
    }
  }

  lemma {:induction false} LoadsOutside(ts: seq<Thread>, x: Request)
    requires forall t :: 0 <= t < |ts| ==> Outside(ts[t].pc)
    ensures Loads(ts, x) == Occ(Executed(ts), x)
  {
    if ts != [] {
      LoadsOutside(ts[..|ts| - 1], x);
      OccConcat(Executed(ts[..|ts| - 1]), ts[|ts| - 1].ran, x);
    }
  }

  lemma Account(s: State, x: Request)
    requires ConserveInv(s) && AllOutside(s)
    ensures multiset(s.h.submitted)[x]
         == multiset(s.h.rejected)[x] + multiset(s.h.items)[x] + multiset(Executed(s.threads))[x]
  {
    LoadsOutside(s.threads, x);
    OccMultiset(s.h.submitted, x);
    OccMultiset(s.h.rejected, x);
    OccMultiset(s.h.items, x);
    OccMultiset(Executed(s.threads), x);
  }

  lemma Accounts(s: State)
    requires ConserveInv(s) && AllOutside(s)
    ensures multiset(s.h.submitted) == multiset(s.h.rejected) + multiset(s.h.items) + multiset(Executed(s.threads))
  {
    forall x ensures multiset(s.h.submitted)[x]
                  == multiset(s.h.rejected)[x] + multiset(s.h.items)[x] + multiset(Executed(s.threads))[x]
    {
      Account(s, x);
    }
  }

  lemma NothingLeft(s: State, t: Tid)
    requires SafeInv(s) && AllOutside(s) && t < |s.threads| && s.threads[t].pc.Done?
    ensures s.h.items == [] && s.m.heap == map[]
  {
    assert Knows(s.m, s.h, s.threads[t].pc);
    forall u | 0 <= u < |s.threads| ensures Private(s.threads[u].pc).Null? {
      assert Outside(s.threads[u].pc);
    }
    assert forall n :: n !in s.m.heap;
  }

  /** Exactly once: when all threads have come to rest, the requests that callers handed over are,
      with their multiplicities, the rejected, the still queued and the executed ones.  If a consumer has
      returned, nothing is queued and no node is allocated, so every request was executed once
      or rejected once. */
  lemma ExactlyOnce(s0: State, sched: seq<(Tid, Choice)>)
    requires Init(s0) && Valid(s0, sched) && Courteous(s0, sched) && AllOutside(Final(s0, sched))
    ensures var s := Final(s0, sched);
      && multiset(SubmitsOf(sched)) == multiset(s.h.rejected) + multiset(s.h.items) + multiset(Executed(s.threads))
      && ((exists t :: 0 <= t < |s.threads| && s.threads[t].pc.Done?) ==> s.h.items == [] && s.m.heap == map[])
  {
    InitInv(s0);
    RunInv(s0, sched);
    var s := Final(s0, sched);
    SubmittedByCallers(s0, sched);
    assert s.h.submitted == SubmitsOf(sched);
    Accounts(s);
    if t :| 0 <= t < |s.threads| && s.threads[t].pc.Done? {
      NothingLeft(s, t);
    }
  }

  /** A thread serves requests in the order in which the queue accepted them: what the threads
      took is a prefix of what was accepted, and each thread has executed, in that order, its
      share of it; `processed_count` counts it. */
  lemma ServedInOrder(s0: State, sched: seq<(Tid, Choice)>, t: Tid)
    requires Init(s0) && Valid(s0, sched) && Courteous(s0, sched) && t < |Final(s0, sched).threads|
    ensures var s := Final(s0, sched);
      && Requests(s.h.taken) <= s.h.accepted
      && s.threads[t].ran <= TakenBy(s.h.taken, t)
      && (!s.threads[t].pc.Work? ==> s.threads[t].processed == |s.threads[t].ran|)
  {
    InitInv(s0);
    RunInv(s0, sched);
    assert InOrder(Final(s0, sched).h, t, Final(s0, sched).threads[t]);
  }
}
