/** The thread pool: one queue and one worker per slot, clients that add requests to arbitrary
    queues, and the thread that destroys the pool: close all, join and free each, free all.

    In every queue thread 0 is the worker, thread 1 stands for the destroying thread while it is
    in a call on this queue, and the others are clients inside `thread_pool_add`. */
module ThreadPool {
  import opened Basics
  import opened Fifo
  import opened QueueMachine
  import opened QueueInvariants
  import opened QueueHistory
  import opened QueueTheorems
  import opened QueueProgress

  /** Where `thread_pool_destroy` is. */
  datatype Main =
    | Serving                 // not called yet
    | Closing(i: nat)         // about to close queue i
    | InClose(i: nat)         // inside queue_close on queue i
    | Joining(i: nat)         // waiting for worker i
    | InDestroy(i: nat)       // inside queue_destroy on queue i
    | Finished

  datatype Pool = Pool(queues: seq<State>, main: Main)

  /** Some thread runs one statement on queue `q`, or the destroying thread moves on. */
  datatype Act = Step(q: nat, t: Tid, c: Choice) | Advance

  /** `rand() % num_threads` may pick any queue, and clients may come at any time.  The destroying
      thread waits for its own calls to return and for the workers to end, and for nobody else. */
  predicate CanAct(p: Pool, a: Act) {
    match a
    case Step(q, t, c) =>
      q < |p.queues| && CanRun(p.queues[q], t, c) && (Starts(c) ==> t >= 2 && c.Submit?)
    case Advance =>
      match p.main
      case Serving => true
      case Closing(i) => i < |p.queues| ==> CanRun(p.queues[i], 1, Close)
      case InClose(i) => Returned(p, i)
      case Joining(i) => i < |p.queues| ==> Joinable(p.queues[i]) && CanRun(p.queues[i], 1, Destroy)
      case InDestroy(i) => Returned(p, i)
      case Finished => false
  }

  predicate Returned(p: Pool, i: nat) {
    i < |p.queues| && |p.queues[i].threads| >= 2 && p.queues[i].threads[1].pc.Idle?
  }

  predicate Joinable(s: State) { |s.threads| >= 2 && s.threads[0].pc.Done? }

  function Do(p: Pool, a: Act): Pool
    requires CanAct(p, a)
  {
    match a
    case Step(q, t, c) => p.(queues := p.queues[q := Next(p.queues[q], t, c)])
    case Advance =>
      match p.main
      case Serving => p.(main := Closing(0))
      case Closing(i) =>
        if i < |p.queues| then Pool(p.queues[i := Next(p.queues[i], 1, Close)], InClose(i))
        else p.(main := Joining(0))
      case InClose(i) => p.(main := Closing(i + 1))
      case Joining(i) =>
        if i < |p.queues| then Pool(p.queues[i := Next(p.queues[i], 1, Destroy)], InDestroy(i))
        else p.(main := Finished)
      case InDestroy(i) => p.(main := Joining(i + 1))
      case Finished => p
  }

  ghost predicate PoolInit(p: Pool) {
    p.main == Serving &&
    forall j :: 0 <= j < |p.queues| ==>
      Init(p.queues[j]) && |p.queues[j].threads| >= 2 && p.queues[j].threads[0].pc.Deq?
      && forall t :: 1 <= t < |p.queues[j].threads| ==> p.queues[j].threads[t].pc.Idle?
  }

  ghost predicate PoolValid(p: Pool, acts: seq<Act>)
    decreases |acts|, 0
  {
    acts == [] ||
    (PoolValid(p, acts[..|acts| - 1]) && CanAct(PoolFinal(p, acts[..|acts| - 1]), acts[|acts| - 1]))
  }

  ghost function PoolFinal(p: Pool, acts: seq<Act>): Pool
    requires PoolValid(p, acts)
    decreases |acts|, 1
  {
    if acts == [] then p else Do(PoolFinal(p, acts[..|acts| - 1]), acts[|acts| - 1])
  }

  // ================================================================ what users of the pool have to observe

  predicate ClientsIdle(s: State) { forall t :: 2 <= t < |s.threads| ==> s.threads[t].pc.Idle? }

  /** `queue_destroy` has been called on queue `j`. */
  predicate Gone(main: Main, j: nat) {
    match main
    case Joining(i) => j < i
    case InDestroy(i) => j <= i
    case Finished => true
    case _ => false
  }

  /** Nobody starts to add to a queue that is being freed, and whoever is still adding to a queue
      when its worker has ended is let finish before it is freed. */
  predicate Polite(p: Pool, a: Act) {
    match a
    case Step(q, _, c) => Starts(c) ==> !Gone(p.main, q)
    case Advance => p.main.Joining? && p.main.i < |p.queues| ==> ClientsIdle(p.queues[p.main.i])
  }

  ghost predicate PoolPolite(p: Pool, acts: seq<Act>)
    requires PoolValid(p, acts)
  {
    acts == [] ||
    (PoolPolite(p, acts[..|acts| - 1]) && Polite(PoolFinal(p, acts[..|acts| - 1]), acts[|acts| - 1]))
  }

  // ================================================================ invariant

  /** The life of one queue, seen from the destroying thread. */
  datatype Phase = Open | Shutting | Closed | Draining | Dying | Dead

  function PhaseOf(main: Main, j: nat): Phase {
    match main
    case Serving => Open
    case Closing(i) => if j < i then Closed else Open
    case InClose(i) => if j < i then Closed else if j == i then Shutting else Open
    case Joining(i) => if j < i then Dead else Draining
    case InDestroy(i) => if j < i then Dead else if j == i then Dying else Draining
    case Finished => Dead
  }

  ghost predicate InPhase(s: State, ph: Phase)
    requires |s.threads| >= 2
  {
    var main := s.threads[1].pc;
    match ph
    case Open => s.m.alive && main.Idle?
    case Shutting => s.m.alive && (main.Clo? || (main.Idle? && s.m.closed))
    case Closed => s.m.alive && main.Idle? && s.m.closed
    case Draining => s.m.alive && main.Idle? && s.m.closed
    case Dying =>
      s.m.closed && ClientsIdle(s) && s.threads[0].pc.Done? && if s.m.alive then main.Des? else main.Idle?
    case Dead => s.m.closed && ClientsIdle(s) && s.threads[0].pc.Done? && !s.m.alive && main.Idle?
  }

  /** Thread 0 consumes, and only thread 0 does. */
  ghost predicate Layout(s: State) {
    && |s.threads| >= 2
    && Consumer(s.threads[0].pc)
    && (forall t :: 1 <= t < |s.threads| ==> !Consumer(s.threads[t].pc))
    && (forall t :: 2 <= t < |s.threads| ==> s.threads[t].pc.Idle? || s.threads[t].pc.Enq?)
    && (forall k :: 0 <= k < |s.h.taken| ==> s.h.taken[k].0 == 0)
  }

  ghost predicate SlotInv(s: State, ph: Phase) {
    Inv(s) && Layout(s) && InPhase(s, ph)
  }

  ghost predicate PoolInv(p: Pool) {
    && (forall j :: 0 <= j < |p.queues| ==> SlotInv(p.queues[j], PhaseOf(p.main, j)))
    && (match p.main
        case Closing(i) => i <= |p.queues|
        case InClose(i) => i < |p.queues|
        case Joining(i) => i <= |p.queues|
        case InDestroy(i) => i < |p.queues|
        case _ => true)
  }

  /** What a step does to the place of the thread that runs. */
  lemma PlaceAfter(s: State, t: Tid, c: Choice)
    requires Runs(s, t, c)
    ensures var pc, o := s.threads[t].pc, Local(s.m, s.h, t, s.threads[t], c);
      && (!pc.Idle? ==> Consumer(o.me.pc) == Consumer(pc))
      && (pc.Idle? ==> !Consumer(o.me.pc) && (c.Submit? ==> o.me.pc.Enq?))
      && (pc.Enq? ==> o.me.pc.Enq? || o.me.pc.Idle?)
      && (pc.Clo? ==> o.me.pc.Clo? || (pc.k.CUnlock? && o.me.pc.Idle?))
      && (pc.Des? ==> o.me.pc.Des? || (o.me.pc.Idle? && !o.m.alive))
      && (!pc.Des? || o.me.pc.Des? ==> o.m.alive == s.m.alive)
  {
  }

  lemma OthersKeepRole(s: State, t: Tid, s': State, u: Tid)
    requires Framed(s, t, s') && u < |s.threads| && u != t
    ensures Consumer(s'.threads[u].pc) == Consumer(s.threads[u].pc)
    ensures !Consumer(s.threads[u].pc) ==> s'.threads[u] == s.threads[u]
  {
  }

  lemma OnlyWorkerTakes(s: State, t: Tid, c: Choice)
    requires Inv(s) && Layout(s) && Runs(s, t, c)
    ensures forall k :: 0 <= k < |Next(s, t, c).h.taken| ==> Next(s, t, c).h.taken[k].0 == 0
  {
    LocalMoves(s, t, c);
  }

  lemma LayoutStep(s: State, t: Tid, c: Choice)
    requires Inv(s) && Layout(s) && Runs(s, t, c) && (Starts(c) && t >= 2 ==> c.Submit?)
    ensures Layout(Next(s, t, c))
  {
    var s' := Next(s, t, c);
    OnlyWorkerTakes(s, t, c);
    PlaceAfter(s, t, c);
    NextFramed(s, t, c);
    forall u | 0 <= u < |s.threads| && u != t ensures Consumer(s'.threads[u].pc) == Consumer(s.threads[u].pc)
      && (!Consumer(s.threads[u].pc) ==> s'.threads[u] == s.threads[u])
    {
      OthersKeepRole(s, t, s', u);
    }
  }

  /** Nothing that may happen on a queue leaves its phase. */
  lemma PhaseStep(s: State, t: Tid, c: Choice, ph: Phase)
    requires SlotInv(s, ph) && Runs(s, t, c)
    requires Starts(c) ==> t >= 2 && c.Submit? && !ph.Dying? && !ph.Dead?
    ensures SlotInv(Next(s, t, c), ph)
  {
    var s' := Next(s, t, c);
    StepInv(s, t, c);
    LayoutStep(s, t, c);
    NextFramed(s, t, c);
    PlaceAfter(s, t, c);
    LocalStep(s, t, c);
    assert Knows(s.m, s.h, s.threads[t].pc);
  }

  /** What users of the pool observe is what callers of the queues have to. */
  lemma CanSubmit(s: State, t: Tid, c: Choice, ph: Phase)
    requires SlotInv(s, ph) && CanRun(s, t, c)
    requires Starts(c) ==> t >= 2 && c.Submit? && !ph.Dying? && !ph.Dead?
    ensures Runs(s, t, c)
  {
    if Starts(c) {
      assert Usable(s) by {
        forall u | 0 <= u < |s.threads| ensures !s.threads[u].pc.Des? {
          assert u == 0 || u == 1 || 2 <= u;
        }
      }
    }
  }

  lemma CanClose(s: State)
    requires SlotInv(s, Open)
    ensures Runs(s, 1, Close)
  {
    assert PlaceInv(s);
  }

  lemma CanDestroy(s: State)
    requires SlotInv(s, Draining) && s.threads[0].pc.Done? && ClientsIdle(s)
    ensures Runs(s, 1, Destroy)
  {
    forall u | 0 <= u < |s.threads| && u != 1 ensures Outside(s.threads[u].pc) {
      assert u == 0 || 2 <= u;
    }
  }

  lemma StartClose(s: State)
    requires SlotInv(s, Open) && Runs(s, 1, Close)
    ensures SlotInv(Next(s, 1, Close), Shutting)
  {
    StepInv(s, 1, Close);
    LayoutStep(s, 1, Close);
  }

  lemma StartDestroy(s: State)
    requires SlotInv(s, Draining) && s.threads[0].pc.Done? && ClientsIdle(s) && Runs(s, 1, Destroy)
    ensures SlotInv(Next(s, 1, Destroy), Dying)
  {
    StepInv(s, 1, Destroy);
    LayoutStep(s, 1, Destroy);
  }

  /** When the destroying thread moves on without touching a queue, phases follow each other. */
  predicate Follows(s: State, ph: Phase, ph': Phase) {
    || ph' == ph
    || (ph.Shutting? && ph'.Closed? && |s.threads| >= 2 && s.threads[1].pc.Idle?)
    || (ph.Closed? && ph'.Draining?)
    || (ph.Dying? && ph'.Dead? && |s.threads| >= 2 && s.threads[1].pc.Idle?)
  }

  lemma NextPhase(s: State, ph: Phase, ph': Phase)
    requires SlotInv(s, ph) && Follows(s, ph, ph')
    ensures SlotInv(s, ph')
  {
    assert PlaceInv(s);
  }

  lemma AdvanceFollows(p: Pool, j: nat)
    requires CanAct(p, Advance) && j < |p.queues| && (p.main.Closing? ==> p.main.i <= |p.queues|)
    requires (p.main.Closing? || p.main.Joining?) ==> p.main.i <= |p.queues| && p.main.i != j
    ensures var p' := Do(p, Advance);
      p'.queues[j] == p.queues[j] && Follows(p.queues[j], PhaseOf(p.main, j), PhaseOf(p'.main, j))
  {
  }

  lemma AdvanceSlot(p: Pool, j: nat)
    requires PoolInv(p) && CanAct(p, Advance) && Polite(p, Advance) && j < |p.queues|
    ensures var p' := Do(p, Advance); SlotInv(p'.queues[j], PhaseOf(p'.main, j))
  {
    var s := p.queues[j];
    assert SlotInv(s, PhaseOf(p.main, j));
    if p.main == Closing(j) {
      CanClose(s);
      StartClose(s);
    } else if p.main == Joining(j) {
      CanDestroy(s);
      StartDestroy(s);
    } else {
      AdvanceFollows(p, j);
      NextPhase(s, PhaseOf(p.main, j), PhaseOf(Do(p, Advance).main, j));
    }
  }

  lemma StepSlot(p: Pool, q: nat, t: Tid, c: Choice)
    requires q < |p.queues| && SlotInv(p.queues[q], PhaseOf(p.main, q))
    requires CanAct(p, Step(q, t, c)) && Polite(p, Step(q, t, c))
    ensures SlotInv(Next(p.queues[q], t, c), PhaseOf(p.main, q))
  {
    CanSubmit(p.queues[q], t, c, PhaseOf(p.main, q));
    PhaseStep(p.queues[q], t, c, PhaseOf(p.main, q));
  }

  lemma ActInv(p: Pool, a: Act)
    requires PoolInv(p) && CanAct(p, a) && Polite(p, a)
    ensures PoolInv(Do(p, a))
  {
    if a.Advance? {
      forall j | 0 <= j < |p.queues| ensures SlotInv(Do(p, a).queues[j], PhaseOf(Do(p, a).main, j)) {
        AdvanceSlot(p, j);
      }
    } else {
      StepSlot(p, a.q, a.t, a.c);
    }
  }

  lemma {:induction false} PoolRunInv(p: Pool, acts: seq<Act>)
    requires PoolInv(p) && PoolValid(p, acts) && PoolPolite(p, acts)
    ensures PoolInv(PoolFinal(p, acts)) && |PoolFinal(p, acts).queues| == |p.queues|
  {
    if acts == [] {
    } else {
      PoolRunInv(p, acts[..|acts| - 1]);
      ActInv(PoolFinal(p, acts[..|acts| - 1]), acts[|acts| - 1]);
    }
  }

  lemma PoolInitInv(p: Pool)
    requires PoolInit(p)
    ensures PoolInv(p)
  {
    forall j | 0 <= j < |p.queues| ensures SlotInv(p.queues[j], Open) {
      InitInv(p.queues[j]);
    }
  }

  /** In every state of every polite run of the pool: no thread touches memory that is not there,
      and on no queue is a wakeup lost. */
  lemma PoolSafe(p: Pool, acts: seq<Act>, j: nat)
    requires PoolInit(p) && PoolValid(p, acts) && PoolPolite(p, acts) && j < |p.queues|
    ensures |PoolFinal(p, acts).queues| == |p.queues|
    ensures var s := PoolFinal(p, acts).queues[j];
      && (forall t :: 0 <= t < |s.threads| ==> !Faults(s.m, s.threads[t].pc))
      && WakesEnough(s)
  {
    PoolInitInv(p);
    PoolRunInv(p, acts);
    var s := PoolFinal(p, acts).queues[j];
    assert SlotInv(s, PhaseOf(PoolFinal(p, acts).main, j));
    forall t | 0 <= t < |s.threads| ensures !Faults(s.m, s.threads[t].pc) { NoFault(s, t); }
    EnoughWoken(s);
  }

  // ================================================================ what the pool has done in the end

  /** With one worker, what it took is what anybody took. */
  lemma {:induction false} TakenByWorker(taken: seq<(Tid, Request)>, t: Tid)
    requires forall k :: 0 <= k < |taken| ==> taken[k].0 == 0
    ensures TakenBy(taken, t) == if t == 0 then Requests(taken) else []
  {
    if taken == [] {
    } else {
      TakenByWorker(taken[..|taken| - 1], t);
    }
  }

  lemma {:induction false} ExecutedByWorker(ts: seq<Thread>)
    requires |ts| > 0 && forall t :: 1 <= t < |ts| ==> ts[t].ran == []
    ensures Executed(ts) == ts[0].ran
  {
    if |ts| == 1 {
      assert Executed(ts) == Executed(ts[..0]) + ts[0].ran;
    } else {
      ExecutedByWorker(ts[..|ts| - 1]);
    }
  }

  /** What one worker has done by the time its queue has been freed. */
  ghost predicate Settled(s: State, submitted: seq<Request>) {
    && s.threads != []
    && s.threads[0].ran == s.h.accepted                     // every accepted request, once, in order
    && s.threads[0].processed == |s.h.accepted|
    && multiset(submitted) == multiset(s.h.accepted) + multiset(s.h.rejected)
    && s.m.heap == map[]                                    // every node freed
    && !s.m.alive                                           // and the queue
  }

  lemma WorkerRan(s: State)
    requires OrderInv(s) && Layout(s) && s.threads[0].pc.Done? && AllOutside(s) && s.h.items == []
    ensures s.threads[0].ran == s.h.accepted && s.threads[0].processed == |s.h.accepted|
    ensures Executed(s.threads) == s.threads[0].ran
  {
    forall t | 0 <= t < |s.threads| ensures s.threads[t].ran == if t == 0 then Requests(s.h.taken) else [] {
      assert InOrder(s.h, t, s.threads[t]);
      TakenByWorker(s.h.taken, t);
    }
    ExecutedByWorker(s.threads);
  }

  lemma DeadSettled(s: State)
    requires SlotInv(s, Dead)
    ensures Settled(s, s.h.submitted)
  {
    assert AllOutside(s) by { assert PlaceInv(s); }
    NothingLeft(s, 0);
    Accounts(s);
    WorkerRan(s);
  }

  function Processed(s: State): nat { if s.threads == [] then 0 else s.threads[0].processed }

  function TotalProcessed(qs: seq<State>): nat {
    if qs == [] then 0 else TotalProcessed(qs[..|qs| - 1]) + Processed(qs[|qs| - 1])
  }

  function TotalAccepted(qs: seq<State>): nat {
    if qs == [] then 0 else TotalAccepted(qs[..|qs| - 1]) + |qs[|qs| - 1].h.accepted|
  }

  lemma {:induction false} TotalsAgree(qs: seq<State>)
    requires forall j :: 0 <= j < |qs| ==> Settled(qs[j], qs[j].h.submitted)
    ensures TotalProcessed(qs) == TotalAccepted(qs)
  {
    if qs != [] { TotalsAgree(qs[..|qs| - 1]); }
  }

  /** The requests that clients add to queue `j`, read off the acts alone. */
  function AddedTo(acts: seq<Act>, j: nat): seq<Request> {
    if acts == [] then []
    else AddedTo(acts[..|acts| - 1], j) + AddedBy(acts[|acts| - 1], j)
  }

  function AddedBy(a: Act, j: nat): seq<Request> {
    if a.Step? && a.q == j then HandedOver(a.c) else []
  }

  lemma ActSubmits(p: Pool, a: Act, j: nat)
    requires CanAct(p, a) && j < |p.queues|
    ensures Do(p, a).queues[j].h.submitted == p.queues[j].h.submitted + AddedBy(a, j)
  {
    if a.Step? {
      StepSubmits(p.queues[a.q], a.t, a.c);
    } else if p.main == Closing(j) {
      StepSubmits(p.queues[j], 1, Close);
    } else if p.main == Joining(j) {
      StepSubmits(p.queues[j], 1, Destroy);
    }
  }

  lemma {:induction false} AddedByClients(p: Pool, acts: seq<Act>, j: nat)
    requires PoolValid(p, acts) && j < |p.queues|
    ensures |PoolFinal(p, acts).queues| == |p.queues|
    ensures PoolFinal(p, acts).queues[j].h.submitted == p.queues[j].h.submitted + AddedTo(acts, j)
  {
    if acts != [] {
      var n := |acts| - 1;
      AddedByClients(p, acts[..n], j);
      ActSubmits(PoolFinal(p, acts[..n]), acts[n], j);
    }
  }

  /** An idle client can add any request to any queue, and it is this request that then stands in
      its hands and in nobody else's; the contract allows it while the queue is not being
      freed. */
  lemma AnyRequestToAnyQueue(p: Pool, q: nat, t: Tid, r: Request)
    requires q < |p.queues| && 2 <= t < |p.queues[q].threads| && p.queues[q].threads[t].pc.Idle?
    ensures var a := Step(q, t, Submit(r));
      && CanAct(p, a) && (Polite(p, a) <==> !Gone(p.main, q))
      && (var s, s' := p.queues[q], Do(p, a).queues[q];
          && Pending(s'.threads[t].pc) == Some(r) && s'.m == s.m && s'.owner == s.owner
          && s'.threads == s.threads[t := s'.threads[t]])
      && forall j :: 0 <= j < |p.queues| && j != q ==> Do(p, a).queues[j] == p.queues[j]
  {
  }

  /** Exactly once, for the whole pool: when `thread_pool_destroy` returns, every worker has
      executed exactly the requests its queue accepted, in that order; every request that a client
      added was accepted or rejected; every node and every queue has been freed; and the
      processed counts add up to the number of accepted requests. */
  lemma PoolExactlyOnce(p: Pool, acts: seq<Act>)
    requires PoolInit(p) && PoolValid(p, acts) && PoolPolite(p, acts) && PoolFinal(p, acts).main.Finished?
    ensures var qs := PoolFinal(p, acts).queues;
      && |qs| == |p.queues|
      && (forall j :: 0 <= j < |qs| ==> Settled(qs[j], AddedTo(acts, j)))
      && TotalProcessed(qs) == TotalAccepted(qs)
  {
    PoolInitInv(p);
    PoolRunInv(p, acts);
    var qs := PoolFinal(p, acts).queues;
    forall j | 0 <= j < |qs| ensures Settled(qs[j], qs[j].h.submitted) && qs[j].h.submitted == AddedTo(acts, j) {
      assert SlotInv(qs[j], Dead);
      DeadSettled(qs[j]);
      AddedByClients(p, acts, j);
      assert Init(p.queues[j]);
    }
    TotalsAgree(qs);
  }

  lemma DestroyerFindsNothing(s: State)
    requires SafeInv(s) && |s.threads| >= 2 && s.threads[1].pc.Des?
    ensures s.m.front == Null && s.m.heap == map[] && s.h.items == []
  {
    assert Knows(s.m, s.h, s.threads[1].pc);
    forall u | 0 <= u < |s.threads| ensures Private(s.threads[u].pc).Null? {
      assert u != 1 ==> Outside(s.threads[u].pc);
    }
    assert forall n :: n !in s.m.heap;
  }

  /** `queue_destroy` finds an empty list: it never frees a request that was not executed. */
  lemma DestroyFindsNothing(p: Pool, acts: seq<Act>, j: nat)
    requires PoolInit(p) && PoolValid(p, acts) && PoolPolite(p, acts) && j < |p.queues|
    ensures |PoolFinal(p, acts).queues| == |p.queues|
    ensures var s := PoolFinal(p, acts).queues[j];
      |s.threads| >= 2 && (s.threads[1].pc.Des? ==> s.m.front == Null && s.m.heap == map[] && s.h.items == [])
  {
    PoolInitInv(p);
    PoolRunInv(p, acts);
    var s := PoolFinal(p, acts).queues[j];
    assert SlotInv(s, PhaseOf(PoolFinal(p, acts).main, j));
    if s.threads[1].pc.Des? {
      DestroyerFindsNothing(s);
    }
  }

  // ================================================================ shutdown

  function Measures(qs: seq<State>): nat {
    if qs == [] then 0 else Measures(qs[..|qs| - 1]) + Measure(qs[|qs| - 1])
  }

  lemma {:induction false} MeasuresUpdate(qs: seq<State>, j: nat, s: State)
    requires j < |qs|
    ensures Measures(qs[j := s]) == Measures(qs) - Measure(qs[j]) + Measure(s)
  {
    var n := |qs| - 1;
    if j < n {
      MeasuresUpdate(qs[..n], j, s);
      assert qs[j := s][..n] == qs[..n][j := s];
    } else {
      assert qs[j := s][..n] == qs[..n];
    }
  }

  predicate AllClosed(p: Pool) { p.main.Joining? || p.main.InDestroy? || p.main.Finished? }

  function MainRank(p: Pool): int {
    var n := |p.queues|;
    match p.main
    case Joining(i) => 4 * (n - i) + 1
    case InDestroy(i) => 4 * (n - i) - 2
    case _ => 0
  }

  function PoolMeasure(p: Pool): int { Measures(p.queues) + MainRank(p) }

  lemma StartDestroyCosts(s: State)
    requires CanRun(s, 1, Destroy) && s.threads[1].pc.Idle?
    ensures Measure(Next(s, 1, Destroy)) == Measure(s) + 2
  {
    RanksUpdate(s.threads, 1, s.threads[1].(pc := Des(XTest, 0)));
  }

  predicate NoNewcomer(a: Act) { a.Step? ==> !Starts(a.c) }

  /** Once all queues are closed, everything that happens, apart from clients that still begin to
      add, brings the end nearer. */
  lemma ShutdownShrinks(p: Pool, a: Act)
    requires PoolInv(p) && AllClosed(p) && CanAct(p, a) && Polite(p, a) && NoNewcomer(a)
    ensures AllClosed(Do(p, a)) && 0 <= PoolMeasure(Do(p, a)) < PoolMeasure(p)
  {
    ActInv(p, a);
    if a.Step? {
      assert SlotInv(p.queues[a.q], PhaseOf(p.main, a.q));
      Shrinks(p.queues[a.q], a.t, a.c);
      MeasuresUpdate(p.queues, a.q, Next(p.queues[a.q], a.t, a.c));
    } else if p.main.Joining? && p.main.i < |p.queues| {
      var i := p.main.i;
      assert SlotInv(p.queues[i], Draining);
      StartDestroyCosts(p.queues[i]);
      MeasuresUpdate(p.queues, i, Next(p.queues[i], 1, Destroy));
    }
  }

  /** So a shutdown takes boundedly many steps, whatever the schedule. */
  lemma {:induction false} ShutdownBounded(p: Pool, acts: seq<Act>)
    requires PoolInv(p) && AllClosed(p) && PoolValid(p, acts) && PoolPolite(p, acts)
    requires forall i :: 0 <= i < |acts| ==> NoNewcomer(acts[i])
    ensures AllClosed(PoolFinal(p, acts)) && 0 <= PoolMeasure(PoolFinal(p, acts))
    ensures |acts| <= PoolMeasure(p) - PoolMeasure(PoolFinal(p, acts))
  {
    if acts == [] {
    } else {
      ShutdownBounded(p, acts[..|acts| - 1]);
      PoolRunInv(p, acts[..|acts| - 1]);
      ShutdownShrinks(PoolFinal(p, acts[..|acts| - 1]), acts[|acts| - 1]);
    }
  }

  lemma SlotNotStuck(p: Pool, i: nat, who: Tid) returns (a: Act)
    requires i < |p.queues| && Inv(p.queues[i]) && who < |p.queues[i].threads|
    requires !Outside(p.queues[i].threads[who].pc)
    requires p.queues[i].m.closed || !Asleep(p.queues[i].threads[who].pc)
    ensures CanAct(p, a) && Polite(p, a) && NoNewcomer(a)
  {
    var t, c := NotStuck(p.queues[i], who);
    a := Step(i, t, c);
  }

  /** And it cannot stop before it is finished.  In fact the pool never gets stuck at all: until
      `thread_pool_destroy` has returned, some act is always possible, and allowed. */
  lemma PoolNotStuck(p: Pool) returns (a: Act)
    requires PoolInv(p) && !p.main.Finished?
    ensures CanAct(p, a) && Polite(p, a) && NoNewcomer(a)
  {
    a := Advance;
    if p.main.Closing? && p.main.i < |p.queues| {
      assert SlotInv(p.queues[p.main.i], Open);
      CanClose(p.queues[p.main.i]);
    } else if p.main.Joining? && p.main.i < |p.queues| {
      a := JoiningNotStuck(p);
    } else if p.main.InClose? || p.main.InDestroy? {
      assert SlotInv(p.queues[p.main.i], PhaseOf(p.main, p.main.i));
      if !p.queues[p.main.i].threads[1].pc.Idle? {
        a := SlotNotStuck(p, p.main.i, 1);
      }
    }
  }

  lemma JoiningNotStuck(p: Pool) returns (a: Act)
    requires PoolInv(p) && p.main.Joining? && p.main.i < |p.queues|
    ensures CanAct(p, a) && Polite(p, a) && NoNewcomer(a)
  {
    var i := p.main.i;
    var s := p.queues[i];
    assert SlotInv(s, Draining);
    if !s.threads[0].pc.Done? {
      a := SlotNotStuck(p, i, 0);
    } else if !ClientsIdle(s) {
      var who :| 2 <= who < |s.threads| && !s.threads[who].pc.Idle?;
      a := SlotNotStuck(p, i, who);
    } else {
      CanDestroy(s);
      a := Advance;
    }
  }

  /** Shutdown always completes: take any polite run that has come to the joins and continue it
      politely, without new clients, in any way until nothing can happen any more.  The
      continuation is no longer than the measure, and at its end `thread_pool_destroy` has
      returned. */
  lemma ShutdownCompletes(p: Pool, acts: seq<Act>, more: seq<Act>)
    requires PoolInit(p) && PoolValid(p, acts) && PoolPolite(p, acts) && AllClosed(PoolFinal(p, acts))
    requires PoolValid(PoolFinal(p, acts), more) && PoolPolite(PoolFinal(p, acts), more)
    requires forall i :: 0 <= i < |more| ==> NoNewcomer(more[i])
    ensures |more| <= PoolMeasure(PoolFinal(p, acts))
    ensures var end := PoolFinal(PoolFinal(p, acts), more);
      (forall a :: CanAct(end, a) ==> !Polite(end, a) || !NoNewcomer(a)) ==> end.main.Finished?
  {
    PoolInitInv(p);
    PoolRunInv(p, acts);
    var mid := PoolFinal(p, acts);
    ShutdownBounded(mid, more);
    PoolRunInv(mid, more);
    if !PoolFinal(mid, more).main.Finished? {
      var a := PoolNotStuck(PoolFinal(mid, more));
    }
  }
}
