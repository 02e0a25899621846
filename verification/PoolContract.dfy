/** What the users of the pool have to observe (`ThreadPool.Polite`) is exactly what they have to:
    an act that breaks it can be followed, without further calls, by a thread touching a queue
    that has been freed; an act that observes it cannot. */
module PoolContract {
  import opened Basics
  import opened Fifo
  import opened QueueMachine
  import opened QueueInvariants
  import opened QueueHistory
  import opened QueueProgress
  import opened ThreadPool

  predicate FaultAt(p: Pool, q: nat, t: Tid) {
    q < |p.queues| && t < |p.queues[q].threads| && Faults(p.queues[q].m, p.queues[q].threads[t].pc)
  }

  ghost predicate Faulty(p: Pool) { exists q, t :: FaultAt(p, q, t) }

  /** Only calls that have begun go on. */
  predicate Quiet(acts: seq<Act>) { forall i :: 0 <= i < |acts| ==> acts[i].Step? && !Starts(acts[i].c) }

  lemma Extend(p: Pool, acts: seq<Act>, a: Act)
    requires PoolValid(p, acts) && CanAct(PoolFinal(p, acts), a)
    ensures PoolValid(p, acts + [a]) && PoolFinal(p, acts + [a]) == Do(PoolFinal(p, acts), a)
    ensures PoolPolite(p, acts) && Polite(PoolFinal(p, acts), a) ==> PoolPolite(p, acts + [a])
  {
    assert (acts + [a])[..|acts|] == acts;
  }

  // ================================================================ breaking the rules leads to a fault

  /** The queue has been freed, or its destroyer cannot but free it, while client `t` is inside
      `queue_enqueue`. */
  ghost predicate Doomed(s: State, t: Tid) {
    && 2 <= t < |s.threads| && s.threads[t].pc.Enq?
    && (s.threads[t].pc.e.EData? || s.threads[t].pc.e.ENext? ==> s.threads[t].pc.node in s.m.heap)
    && (s.m.alive ==>
          && s.threads[1].pc.Des? && (s.threads[1].pc.x.XTest? || s.threads[1].pc.x.XFreeQueue?)
          && s.m.front.Null?)
  }

  function StepsToFault(s: State, t: Tid): nat {
    if !(2 <= t < |s.threads| && s.threads[t].pc.Enq?) then 0
    else
      (if !s.m.alive then 0 else if s.threads[1].pc.Des? && s.threads[1].pc.x.XTest? then 2 else 1)
      + (match s.threads[t].pc.e case EAlloc => 3 case EData => 2 case ENext => 1 case _ => 0)
  }

  lemma DoomStep(s: State, t: Tid) returns (u: Tid, c: Choice)
    requires Doomed(s, t) && !Faults(s.m, s.threads[t].pc)
    ensures CanRun(s, u, c) && !Starts(c)
    ensures Doomed(Next(s, u, c), t) && StepsToFault(Next(s, u, c), t) < StepsToFault(s, t)
  {
    u, c := if s.m.alive then 1 else t, Go;
    if !s.m.alive && s.threads[t].pc.e.EAlloc? {
      var n := FreeNode(s.m.heap.Keys);
      c := Malloc(n, Cell(s.threads[t].pc.req, Null));
    }
  }

  lemma {:induction false} Doom(p: Pool, acts: seq<Act>, q: nat, t: Tid) returns (more: seq<Act>)
    requires PoolValid(p, acts) && Quiet(acts) && q < |PoolFinal(p, acts).queues|
    requires Doomed(PoolFinal(p, acts).queues[q], t)
    ensures PoolValid(p, more) && Quiet(more) && Faulty(PoolFinal(p, more))
    decreases StepsToFault(PoolFinal(p, acts).queues[q], t)
  {
    var now := PoolFinal(p, acts);
    if FaultAt(now, q, t) {
      more := acts;
    } else {
      var u, c := DoomStep(now.queues[q], t);
      Extend(p, acts, Step(q, u, c));
      more := Doom(p, acts + [Step(q, u, c)], q, t);
    }
  }

  lemma DestroyDooms(s: State, t: Tid)
    requires CanRun(s, 1, Destroy) && s.threads[1].pc.Idle? && s.m.front.Null?
    requires 2 <= t < |s.threads| && s.threads[t].pc.Enq?
    requires s.threads[t].pc.e.EData? || s.threads[t].pc.e.ENext? ==> s.threads[t].pc.node in s.m.heap
    ensures Doomed(Next(s, 1, Destroy), t)
  {
  }

  lemma FreedTooEarly(s: State, t: Tid)
    requires SlotInv(s, Draining) && s.threads[0].pc.Done? && CanRun(s, 1, Destroy)
    requires 2 <= t < |s.threads| && !s.threads[t].pc.Idle?
    ensures Doomed(Next(s, 1, Destroy), t)
  {
    assert s.m.front.Null? by { assert Knows(s.m, s.h, s.threads[0].pc); }
    assert Knows(s.m, s.h, s.threads[t].pc);
    DestroyDooms(s, t);
  }

  lemma CameTooLate(s: State, t: Tid, c: Choice, ph: Phase)
    requires SlotInv(s, ph) && (ph.Dying? || ph.Dead?) && CanRun(s, t, c) && c.Submit? && t >= 2
    ensures Doomed(Next(s, t, c), t)
  {
    assert Knows(s.m, s.h, s.threads[1].pc);
  }

  lemma Provoke(p: Pool, a: Act) returns (more: seq<Act>)
    requires PoolInv(p) && CanAct(p, a) && !Polite(p, a)
    ensures PoolValid(Do(p, a), more) && Quiet(more) && Faulty(PoolFinal(Do(p, a), more))
  {
    var p1 := Do(p, a);
    if a.Step? {
      assert SlotInv(p.queues[a.q], PhaseOf(p.main, a.q));
      CameTooLate(p.queues[a.q], a.t, a.c, PhaseOf(p.main, a.q));
      more := Doom(p1, [], a.q, a.t);
    } else {
      var i := p.main.i;
      assert SlotInv(p.queues[i], Draining);
      var t :| 2 <= t < |p.queues[i].threads| && !p.queues[i].threads[t].pc.Idle?;
      FreedTooEarly(p.queues[i], t);
      more := Doom(p1, [], i, t);
    }
  }

  // ================================================================ observing them does not

  lemma {:induction false} QuietIsPolite(p: Pool, acts: seq<Act>)
    requires PoolValid(p, acts) && Quiet(acts)
    ensures PoolPolite(p, acts)
  {
    if acts != [] { QuietIsPolite(p, acts[..|acts| - 1]); }
  }

  lemma NotFaulty(p: Pool)
    requires PoolInv(p)
    ensures !Faulty(p)
  {
    forall q: nat, t: Tid ensures !FaultAt(p, q, t) {
      if q < |p.queues| && t < |p.queues[q].threads| {
        assert SlotInv(p.queues[q], PhaseOf(p.main, q));
        NoFault(p.queues[q], t);
      }
    }
  }

  lemma StaysSafe(p: Pool, a: Act, more: seq<Act>)
    requires PoolInv(p) && CanAct(p, a) && Polite(p, a) && PoolValid(Do(p, a), more) && Quiet(more)
    ensures !Faulty(PoolFinal(Do(p, a), more))
  {
    ActInv(p, a);
    QuietIsPolite(Do(p, a), more);
    PoolRunInv(Do(p, a), more);
    NotFaulty(PoolFinal(Do(p, a), more));
  }

  /** The contract is exact: after any polite run, an act observes the contract if and only if
      the calls in progress cannot go on from it to a fault. */
  lemma ContractIsExact(p0: Pool, acts: seq<Act>, a: Act)
    requires PoolInit(p0) && PoolValid(p0, acts) && PoolPolite(p0, acts) && CanAct(PoolFinal(p0, acts), a)
    ensures var p := PoolFinal(p0, acts);
      Polite(p, a) <==>
      forall more :: PoolValid(Do(p, a), more) && Quiet(more) ==> !Faulty(PoolFinal(Do(p, a), more))
  {
    PoolInitInv(p0);
    PoolRunInv(p0, acts);
    var p := PoolFinal(p0, acts);
    if Polite(p, a) {
      forall more | PoolValid(Do(p, a), more) && Quiet(more) ensures !Faulty(PoolFinal(Do(p, a), more)) {
        StaysSafe(p, a, more);
      }
    } else {
      var more := Provoke(p, a);
    }
  }

  // ================================================================ a run in which it goes wrong

  const REQ := Request(0, 0)

  /** One queue: its worker at `w`, the destroying thread at `d`, a client that has just called
      `queue_enqueue`. */
  function Scene(main: Main, owner: Option<Tid>, closed: bool, w: Pc, d: Pc): Pool {
    Pool([State(Mem(map[], Null, Null, 0, closed, true), Hist([], [], [], [], [REQ], []), owner,
                [Thread(w, [], 0), Thread(d, [], 0), Thread(Enq(EAlloc, 0, REQ), [], 0)])], main)
  }

  /** A polite run can be followed from `from` to `to` by one act. */
  lemma One(p0: Pool, acts: seq<Act>, from: Pool, a: Act, to: Pool) returns (all: seq<Act>)
    requires PoolValid(p0, acts) && PoolPolite(p0, acts) && PoolFinal(p0, acts) == from
    requires CanAct(from, a) && Polite(from, a) && Do(from, a) == to
    ensures PoolValid(p0, all) && PoolPolite(p0, all) && PoolFinal(p0, all) == to
  {
    Extend(p0, acts, a);
    all := acts + [a];
  }

  /** The worker's statements, none of which touches the list. */
  lemma WorkerOne(p0: Pool, acts: seq<Act>, main: Main, o: Option<Tid>, w: Pc, o': Option<Tid>, w': Pc)
    returns (all: seq<Act>)
    requires PoolValid(p0, acts) && PoolPolite(p0, acts) && PoolFinal(p0, acts) == Scene(main, o, true, w, Idle)
    requires w.Deq? && (WantsLock(w) ==> o.None?) && o' == Holder(o, 0, w, w')
    requires (w.d.DLock? && w' == w.(d := DTest)) || (w.d.DTest? && w' == w.(d := DDecide))
          || (w.d.DDecide? && w' == w.(d := DUnlockNull)) || (w.d.DUnlockNull? && w' == Done)
    ensures PoolValid(p0, all) && PoolPolite(p0, all) && PoolFinal(p0, all) == Scene(main, o', true, w', Idle)
  {
    var from, to := Scene(main, o, true, w, Idle), Scene(main, o', true, w', Idle);
    assert Next(from.queues[0], 0, Go).threads == to.queues[0].threads;
    assert Do(from, Step(0, 0, Go)).queues == to.queues;
    all := One(p0, acts, from, Step(0, 0, Go), to);
  }

  /** The statements of `queue_close`. */
  lemma CloseOne(p0: Pool, acts: seq<Act>, o: Option<Tid>, closed: bool, w: Pc, d: Pc, d': Pc)
    returns (all: seq<Act>)
    requires PoolValid(p0, acts) && PoolPolite(p0, acts) && PoolFinal(p0, acts) == Scene(InClose(0), o, closed, w, d)
    requires d.Clo? && (WantsLock(d) ==> o.None?) && !Asleep(w)
    requires d' == match d.k case CLock => Clo(CSet) case CSet => Clo(CBroadcast) case CBroadcast => Clo(CUnlock)
                             case CUnlock => Idle
    ensures PoolValid(p0, all) && PoolPolite(p0, all)
    ensures PoolFinal(p0, all) == Scene(InClose(0), Holder(o, 1, d, d'), closed || d.k.CSet?, w, d')
  {
    var from := Scene(InClose(0), o, closed, w, d);
    var to := Scene(InClose(0), Holder(o, 1, d, d'), closed || d.k.CSet?, w, d');
    assert Next(from.queues[0], 1, Go).threads == to.queues[0].threads;
    assert Do(from, Step(0, 1, Go)).queues == to.queues;
    all := One(p0, acts, from, Step(0, 1, Go), to);
  }

  lemma CloseRuns(p0: Pool, acts: seq<Act>, w: Pc) returns (all: seq<Act>)
    requires PoolValid(p0, acts) && PoolPolite(p0, acts)
    requires PoolFinal(p0, acts) == Scene(InClose(0), None, false, w, Clo(CLock)) && !Asleep(w)
    ensures PoolValid(p0, all) && PoolPolite(p0, all) && PoolFinal(p0, all) == Scene(InClose(0), None, true, w, Idle)
  {
    all := CloseOne(p0, acts, None, false, w, Clo(CLock), Clo(CSet));
    all := CloseOne(p0, all, Some(1), false, w, Clo(CSet), Clo(CBroadcast));
    all := CloseOne(p0, all, Some(1), true, w, Clo(CBroadcast), Clo(CUnlock));
    all := CloseOne(p0, all, Some(1), true, w, Clo(CUnlock), Idle);
  }

  lemma WorkerEnds(p0: Pool, acts: seq<Act>, main: Main, w: Pc) returns (all: seq<Act>)
    requires PoolValid(p0, acts) && PoolPolite(p0, acts) && w.Deq? && w.d.DLock?
    requires PoolFinal(p0, acts) == Scene(main, None, true, w, Idle)
    ensures PoolValid(p0, all) && PoolPolite(p0, all) && PoolFinal(p0, all) == Scene(main, None, true, Done, Idle)
  {
    all := WorkerOne(p0, acts, main, None, w, Some(0), w.(d := DTest));
    all := WorkerOne(p0, all, main, Some(0), w.(d := DTest), Some(0), w.(d := DDecide));
    all := WorkerOne(p0, all, main, Some(0), w.(d := DDecide), Some(0), w.(d := DUnlockNull));
    all := WorkerOne(p0, all, main, Some(0), w.(d := DUnlockNull), None, Done);
  }

  lemma ClientComes(w: Pc) returns (p0: Pool, acts: seq<Act>)
    requires w == Deq(DLock, 0, REQ)
    ensures PoolInit(p0) && PoolValid(p0, acts) && PoolPolite(p0, acts)
    ensures PoolFinal(p0, acts) == Scene(Serving, None, false, w, Idle)
  {
    var s := State(Mem(map[], Null, Null, 0, false, true), Hist([], [], [], [], [], []), None,
                   [Thread(w, [], 0), Thread(Idle, [], 0), Thread(Idle, [], 0)]);
    var to := Scene(Serving, None, false, w, Idle);
    p0 := Pool([s], Serving);
    assert Next(s, 2, Submit(REQ)).threads == to.queues[0].threads;
    assert Next(s, 2, Submit(REQ)).h == to.queues[0].h;
    assert Do(p0, Step(0, 2, Submit(REQ))).queues == to.queues;
    acts := One(p0, [], p0, Step(0, 2, Submit(REQ)), to);
  }

  lemma QueueIsClosed(p0: Pool, acts: seq<Act>, w: Pc) returns (all: seq<Act>)
    requires PoolValid(p0, acts) && PoolPolite(p0, acts)
    requires PoolFinal(p0, acts) == Scene(Serving, None, false, w, Idle) && !Asleep(w)
    ensures PoolValid(p0, all) && PoolPolite(p0, all) && PoolFinal(p0, all) == Scene(Joining(0), None, true, w, Idle)
  {
    all := One(p0, acts, Scene(Serving, None, false, w, Idle), Advance, Scene(Closing(0), None, false, w, Idle));
    var from, to := Scene(Closing(0), None, false, w, Idle), Scene(InClose(0), None, false, w, Clo(CLock));
    assert Next(from.queues[0], 1, Close).threads == to.queues[0].threads;
    assert Do(from, Advance).queues == to.queues;
    all := One(p0, all, from, Advance, to);
    all := CloseRuns(p0, all, w);
    all := One(p0, all, Scene(InClose(0), None, true, w, Idle), Advance, Scene(Closing(1), None, true, w, Idle));
    all := One(p0, all, Scene(Closing(1), None, true, w, Idle), Advance, Scene(Joining(0), None, true, w, Idle));
  }

  /** A client calls `thread_pool_add`; before it runs on, the pool is closed, the worker finds
      its queue closed and empty and ends, and nothing keeps `thread_pool_destroy` from freeing
      the queue.  The client then touches it. */
  lemma UseAfterFree() returns (p0: Pool, acts: seq<Act>, more: seq<Act>)
    ensures PoolInit(p0) && PoolValid(p0, acts) && PoolPolite(p0, acts)
    ensures CanAct(PoolFinal(p0, acts), Advance) && !Polite(PoolFinal(p0, acts), Advance)
    ensures var p := Do(PoolFinal(p0, acts), Advance);
      PoolValid(p, more) && Quiet(more) && Faulty(PoolFinal(p, more))
  {
    var w := Deq(DLock, 0, REQ);
    p0, acts := ClientComes(w);
    acts := QueueIsClosed(p0, acts, w);
    acts := WorkerEnds(p0, acts, Joining(0), w);
    assert !ClientsIdle(PoolFinal(p0, acts).queues[0]) by {
      assert PoolFinal(p0, acts).queues[0].threads[2].pc.Enq?;
    }
    PoolInitInv(p0);
    PoolRunInv(p0, acts);
    more := Provoke(PoolFinal(p0, acts), Advance);
  }
}
