/** The blocking request queue as a step machine: any number of threads inside
    `queue_enqueue`, `queue_dequeue`, `queue_close`, `queue_size`, `queue_isclosed`,
    `queue_destroy` and the consumer loop of a worker.  Every lock operation, every pointer write
    and every update of `size` is a step of its own, and the scheduler may run any thread at any
    moment. */
module QueueMachine {
  import opened Basics
  import opened Fifo

  type NodeId = nat

  datatype Ptr = Null | To(id: NodeId)

  /** `node_t`. */
  datatype Cell = Cell(data: Request, next: Ptr)

  // ---------------------------------------------------------------- places

  /** Statements of `queue_enqueue`, named after what they do next. */
  datatype EnqAt =
    | EAlloc            // node = malloc
    | EData             // node->data = req
    | ENext             // node->next = NULL
    | ELock             // LOCK
    | ECheck            // if (q->closed)
    | EFree             // free(node)
    | EUnlockRejected   // UNLOCK, return
    | ELink             // q->rear->next = node or q->front = node
    | ERear             // q->rear = node
    | ESize             // q->size++
    | ESignal           // pthread_cond_signal
    | EUnlock           // UNLOCK, return

  /** Statements of `queue_dequeue`. */
  datatype DeqAt =
    | DLock             // LOCK
    | DTest             // while (q->front == NULL && !q->closed)
    | DWait             // pthread_cond_wait: release the lock and sleep
    | DAsleep           // asleep on the condition variable
    | DWoken            // woken, wants the lock back
    | DDecide           // if (q->front == NULL && q->closed)
    | DUnlockNull       // UNLOCK, return NULL
    | DTake             // node = q->front
    | DFront            // q->front = node->next
    | DRear             // if (!q->front) q->rear = NULL
    | DSize             // q->size--
    | DUnlock           // UNLOCK
    | DRead             // req = node->data
    | DFree             // free(node), return req

  /** Statements of `worker_func` outside `queue_dequeue`. */
  datatype WorkAt = WExec /* work_fn(arg), free(req) */ | WCount /* processed_count++ */

  datatype CloseAt = CLock | CSet | CBroadcast | CUnlock

  datatype AskAt = ALock | ARead | AUnlock
  datatype Query = IsClosed | Size
  datatype Answer = NoAnswer | Flag(b: bool) | Number(n: int)

  /** Statements of `queue_destroy`. */
  datatype DestroyAt =
    | XTest             // while (q->front != NULL), tmp = q->front
    | XAdvance          // q->front = tmp->next
    | XFree             // free(tmp->data), free(tmp)
    | XFreeQueue        // free(q)

  /** Where a thread is, with its local variables.  `node` is garbage before it is assigned.
      The `got` of a dequeuer is history until `DRead`, which reads it from the node. */
  datatype Pc =
    | Idle                                                    // outside every call
    | Enq(e: EnqAt, node: NodeId, req: Request)
    | Deq(d: DeqAt, node: NodeId, got: Request)
    | Work(w: WorkAt, got: Request)
    | Done                                                    // the worker thread has returned
    | Clo(k: CloseAt)
    | Ask(query: Query, a: AskAt, answer: Answer)
    | Des(x: DestroyAt, node: NodeId)

  // ---------------------------------------------------------------- state

  /** A thread: its place, the requests it has executed (history) and `processed_count`. */
  datatype Thread = Thread(pc: Pc, ran: seq<Request>, processed: nat)

  /** Shared memory: the allocated nodes and the fields of the queue.  `alive` says that the
      queue itself has not been freed. */
  datatype Mem = Mem(heap: map<NodeId, Cell>, front: Ptr, rear: Ptr, size: int, closed: bool, alive: bool)

  /** History: written beside the steps, never looked at by a step. */
  datatype Hist = Hist(
    fifo: seq<NodeId>,                // nodes linked, front first
    items: seq<Request>,              // the requests they carry
    accepted: seq<Request>,           // requests linked so far, in order
    taken: seq<(Tid, Request)>,       // requests unlinked so far, in order, and by whom
    submitted: seq<Request>,          // requests handed to queue_enqueue
    rejected: seq<Request>)           // requests turned away because the queue was closed

  datatype State = State(m: Mem, h: Hist, owner: Option<Tid>, threads: seq<Thread>)

  /** What the scheduler and the environment decide. */
  datatype Choice =
    | Go                                                      // the statement has one outcome
    | Submit(req: Request) | Close | Query(query: Query) | Destroy    // an idle thread starts a call
    | Malloc(node: NodeId, garbage: Cell)                     // which free node, and what it holds
    | WakeOne(sleeper: Tid) | WakeNone                        // whom a signal wakes
    | Spurious                                                // a sleeper wakes for no reason

  predicate Starts(c: Choice) { c.Submit? || c.Close? || c.Query? || c.Destroy? }

  // ---------------------------------------------------------------- classes of places

  /** Between LOCK and UNLOCK. */
  predicate InLock(pc: Pc) {
    match pc
    case Enq(e, _, _) => !e.EAlloc? && !e.EData? && !e.ENext? && !e.ELock?
    case Deq(d, _, _) =>
      || d.DTest? || d.DWait? || d.DDecide? || d.DUnlockNull?
      || d.DTake? || d.DFront? || d.DRear? || d.DSize? || d.DUnlock?
    case Clo(k) => !k.CLock?
    case Ask(_, a, _) => !a.ALock?
    case _ => false
  }

  /** About to LOCK, or to come back from `pthread_cond_wait`. */
  predicate WantsLock(pc: Pc) {
    match pc
    case Enq(e, _, _) => e.ELock?
    case Deq(d, _, _) => d.DLock? || d.DWoken?
    case Clo(k) => k.CLock?
    case Ask(_, a, _) => a.ALock?
    case _ => false
  }

  /** Inside the consumer loop, `queue_dequeue` included. */
  predicate Consumer(pc: Pc) { pc.Deq? || pc.Work? || pc.Done? }

  predicate Outside(pc: Pc) { pc.Idle? || pc.Done? }

  predicate Asleep(pc: Pc) { pc.Deq? && pc.d.DAsleep? }

  predicate AnyAsleep(ts: seq<Thread>) { exists t :: 0 <= t < |ts| && Asleep(ts[t].pc) }

  // ---------------------------------------------------------------- when a step may run

  predicate Enabled(s: State, t: Tid, c: Choice) {
    t < |s.threads| &&
    var pc := s.threads[t].pc;
    if pc.Idle? then Starts(c)
    else if pc.Enq? && pc.e.EAlloc? then c.Malloc? && c.node !in s.m.heap
    else if pc.Enq? && pc.e.ESignal? then
      if c.WakeOne? then c.sleeper < |s.threads| && Asleep(s.threads[c.sleeper].pc)
      else c.WakeNone? && !AnyAsleep(s.threads)
    else if Asleep(pc) then c.Spurious?
    else !pc.Done? && c.Go? && (WantsLock(pc) ==> s.owner.None?)
  }

  /** The statement would touch memory that is not there: a freed queue, a freed node, NULL. */
  predicate Faults(m: Mem, pc: Pc) {
    match pc
    case Idle | Done | Work(_, _) => false
    case Enq(e, n, _) =>
      if e.EAlloc? then false
      else if e.EData? || e.ENext? then n !in m.heap
      else !m.alive || (e.EFree? && n !in m.heap)
           || (e.ELink? && (n !in m.heap || (m.rear.To? && m.rear.id !in m.heap)))
    case Deq(d, n, _) =>
      if d.DRead? || d.DFree? then n !in m.heap
      else !m.alive || (d.DTake? && m.front.Null?) || (d.DFront? && n !in m.heap)
    case Clo(_) => !m.alive
    case Ask(_, _, _) => !m.alive
    case Des(x, n) => !m.alive || ((x.XAdvance? || x.XFree?) && n !in m.heap)
  }

  // ---------------------------------------------------------------- what a step does

  /** What one thread's statement makes of the memory, the history and the thread itself. */
  datatype Out = Out(m: Mem, h: Hist, me: Thread)

  function StartCall(m: Mem, h: Hist, me: Thread, c: Choice): Out {
    match c
    case Submit(r) => Out(m, h.(submitted := h.submitted + [r]), me.(pc := Enq(EAlloc, 0, r)))
    case Close => Out(m, h, me.(pc := Clo(CLock)))
    case Query(q) => Out(m, h, me.(pc := Ask(q, ALock, NoAnswer)))
    case _ => Out(m, h, me.(pc := Des(XTest, 0)))
  }

  function EnqStep(m: Mem, h: Hist, me: Thread, c: Choice): Out
    requires me.pc.Enq? && !Faults(m, me.pc) && (me.pc.e.EAlloc? ==> c.Malloc?)
  {
    var Enq(e, n, r) := me.pc;
    match e
    case EAlloc => Out(m.(heap := m.heap[c.node := c.garbage]), h, me.(pc := Enq(EData, c.node, r)))
    case EData => Out(m.(heap := m.heap[n := m.heap[n].(data := r)]), h, me.(pc := Enq(ENext, n, r)))
    case ENext => Out(m.(heap := m.heap[n := m.heap[n].(next := Null)]), h, me.(pc := Enq(ELock, n, r)))
    case ELock => Out(m, h, me.(pc := Enq(ECheck, n, r)))
    case ECheck =>
      if m.closed then Out(m, h.(rejected := h.rejected + [r]), me.(pc := Enq(EFree, n, r)))
      else Out(m, h, me.(pc := Enq(ELink, n, r)))
    case EFree => Out(m.(heap := m.heap - {n}), h, me.(pc := Enq(EUnlockRejected, n, r)))
    case EUnlockRejected => Out(m, h, me.(pc := Idle))
    case ELink =>
      var m' := if m.rear.To? then m.(heap := m.heap[m.rear.id := m.heap[m.rear.id].(next := To(n))])
                else m.(front := To(n));
      Out(m', h.(fifo := h.fifo + [n], items := h.items + [r], accepted := h.accepted + [r]),
          me.(pc := Enq(ERear, n, r)))
    case ERear => Out(m.(rear := To(n)), h, me.(pc := Enq(ESize, n, r)))
    case ESize => Out(m.(size := m.size + 1), h, me.(pc := Enq(ESignal, n, r)))
    case ESignal => Out(m, h, me.(pc := Enq(EUnlock, n, r)))
    case EUnlock => Out(m, h, me.(pc := Idle))
  }

  function DeqStep(m: Mem, h: Hist, t: Tid, me: Thread): Out
    requires me.pc.Deq? && !Faults(m, me.pc)
  {
    var Deq(d, n, g) := me.pc;
    match d
    case DLock => Out(m, h, me.(pc := Deq(DTest, n, g)))
    case DTest => Out(m, h, me.(pc := Deq(if m.front.Null? && !m.closed then DWait else DDecide, n, g)))
    case DWait => Out(m, h, me.(pc := Deq(DAsleep, n, g)))
    case DAsleep => Out(m, h, me.(pc := Deq(DWoken, n, g)))
    case DWoken => Out(m, h, me.(pc := Deq(DTest, n, g)))
    case DDecide => Out(m, h, me.(pc := Deq(if m.front.Null? && m.closed then DUnlockNull else DTake, n, g)))
    case DUnlockNull => Out(m, h, me.(pc := Done))
    case DTake => Out(m, h, me.(pc := Deq(DFront, m.front.id, g)))
    case DFront =>
      Out(m.(front := m.heap[n].next),
          h.(fifo := if h.fifo == [] then [] else h.fifo[1..],
             items := if h.items == [] then [] else h.items[1..],
             taken := h.taken + [(t, m.heap[n].data)]),
          me.(pc := Deq(DRear, n, m.heap[n].data)))
    case DRear => Out(m.(rear := if m.front.Null? then Null else m.rear), h, me.(pc := Deq(DSize, n, g)))
    case DSize => Out(m.(size := m.size - 1), h, me.(pc := Deq(DUnlock, n, g)))
    case DUnlock => Out(m, h, me.(pc := Deq(DRead, n, g)))
    case DRead => Out(m, h, me.(pc := Deq(DFree, n, m.heap[n].data)))
    case DFree => Out(m.(heap := m.heap - {n}), h, me.(pc := Work(WExec, g)))
  }

  function WorkStep(m: Mem, h: Hist, me: Thread): Out
    requires me.pc.Work?
  {
    if me.pc.w.WExec? then Out(m, h, me.(pc := Work(WCount, me.pc.got), ran := me.ran + [me.pc.got]))
    else Out(m, h, me.(pc := Deq(DLock, 0, me.pc.got), processed := me.processed + 1))
  }

  function CloseStep(m: Mem, h: Hist, me: Thread): Out
    requires me.pc.Clo?
  {
    match me.pc.k
    case CLock => Out(m, h, me.(pc := Clo(CSet)))
    case CSet => Out(m.(closed := true), h, me.(pc := Clo(CBroadcast)))
    case CBroadcast => Out(m, h, me.(pc := Clo(CUnlock)))
    case CUnlock => Out(m, h, me.(pc := Idle))
  }

  function AskStep(m: Mem, h: Hist, me: Thread): Out
    requires me.pc.Ask?
  {
    var Ask(q, a, ans) := me.pc;
    match a
    case ALock => Out(m, h, me.(pc := Ask(q, ARead, ans)))
    case ARead => Out(m, h, me.(pc := Ask(q, AUnlock, if q.Size? then Number(m.size) else Flag(m.closed))))
    case AUnlock => Out(m, h, me.(pc := Idle))
  }

  function DestroyStep(m: Mem, h: Hist, me: Thread): Out
    requires me.pc.Des? && !Faults(m, me.pc)
  {
    var Des(x, n) := me.pc;
    match x
    case XTest => Out(m, h, me.(pc := if m.front.To? then Des(XAdvance, m.front.id) else Des(XFreeQueue, n)))
    case XAdvance => Out(m.(front := m.heap[n].next), h, me.(pc := Des(XFree, n)))
    case XFree => Out(m.(heap := m.heap - {n}), h, me.(pc := Des(XTest, n)))
    case XFreeQueue => Out(m.(alive := false), h, me.(pc := Idle))
  }

  predicate CanStep(m: Mem, me: Thread, c: Choice) {
    !Faults(m, me.pc) && (me.pc.Enq? && me.pc.e.EAlloc? ==> c.Malloc?)
  }

  function Local(m: Mem, h: Hist, t: Tid, me: Thread, c: Choice): Out
    requires CanStep(m, me, c)
  {
    match me.pc
    case Idle => StartCall(m, h, me, c)
    case Enq(_, _, _) => EnqStep(m, h, me, c)
    case Deq(_, _, _) => DeqStep(m, h, t, me)
    case Work(_, _) => WorkStep(m, h, me)
    case Done => Out(m, h, me)
    case Clo(_) => CloseStep(m, h, me)
    case Ask(_, _, _) => AskStep(m, h, me)
    case Des(_, _) => DestroyStep(m, h, me)
  }

  /** Lock, unlock and wait show in the lock owner. */
  function Holder(owner: Option<Tid>, t: Tid, pc: Pc, pc': Pc): Option<Tid> {
    if InLock(pc') then Some(t) else if InLock(pc) then None else owner
  }

  function Wake(th: Thread): Thread {
    if Asleep(th.pc) then th.(pc := th.pc.(d := DWoken)) else th
  }

  function WakeAll(ts: seq<Thread>): (r: seq<Thread>)
    ensures |r| == |ts|
    ensures forall i :: 0 <= i < |ts| ==> r[i] == Wake(ts[i])
  {
    if ts == [] then [] else WakeAll(ts[..|ts| - 1]) + [Wake(ts[|ts| - 1])]
  }

  /** Signal and broadcast show in the sleeping threads.  A signal that wakes several is a
      signal that wakes one followed by spurious wakeups. */
  function Signalled(ts: seq<Thread>, pc: Pc, c: Choice): (r: seq<Thread>)
    ensures |r| == |ts|
  {
    if pc.Enq? && pc.e.ESignal? && c.WakeOne? && c.sleeper < |ts| then ts[c.sleeper := Wake(ts[c.sleeper])]
    else if pc.Clo? && pc.k.CBroadcast? then WakeAll(ts)
    else ts
  }

  predicate CanRun(s: State, t: Tid, c: Choice) {
    Enabled(s, t, c) && !Faults(s.m, s.threads[t].pc)
  }

  function Next(s: State, t: Tid, c: Choice): State
    requires CanRun(s, t, c)
  {
    var me := s.threads[t];
    var o := Local(s.m, s.h, t, me, c);
    State(o.m, o.h, Holder(s.owner, t, me.pc, o.me.pc), Signalled(s.threads, me.pc, c)[t := o.me])
  }

  // ---------------------------------------------------------------- runs

  ghost predicate Fresh(th: Thread) {
    (th.pc.Idle? || (th.pc.Deq? && th.pc.d.DLock?)) && th.ran == [] && th.processed == 0
  }

  /** `queue_init`, with the given threads about to start: clients are idle, consumers are about
      to call `queue_dequeue` for the first time. */
  ghost predicate Init(s: State) {
    && s.m == Mem(map[], Null, Null, 0, false, true)
    && s.h == Hist([], [], [], [], [], [])
    && s.owner == None
    && forall t :: 0 <= t < |s.threads| ==> Fresh(s.threads[t])
  }

  /** Whole runs: a schedule lists who runs and what the environment decides. */
  ghost predicate Valid(s: State, sched: seq<(Tid, Choice)>)
    decreases |sched|, 0
  {
    sched == [] ||
    (var n := |sched| - 1;
     Valid(s, sched[..n]) && CanRun(Final(s, sched[..n]), sched[n].0, sched[n].1))
  }

  ghost function Final(s: State, sched: seq<(Tid, Choice)>): State
    requires Valid(s, sched)
    decreases |sched|, 1
  {
    if sched == [] then s
    else Next(Final(s, sched[..|sched| - 1]), sched[|sched| - 1].0, sched[|sched| - 1].1)
  }

  // ---------------------------------------------------------------- what callers have to observe

  /** A caller may enter the queue only while nobody is destroying it. */
  predicate Usable(s: State) {
    s.m.alive && forall u :: 0 <= u < |s.threads| ==> !s.threads[u].pc.Des?
  }

  /** `queue_destroy` may be called after a consumer has returned, and while no other call is in
      progress. */
  predicate MayDestroy(s: State, t: Tid) {
    && s.m.alive
    && (forall u :: 0 <= u < |s.threads| && u != t ==> Outside(s.threads[u].pc))
    && (exists u :: 0 <= u < |s.threads| && s.threads[u].pc.Done?)
  }

  /** The code does not check any of this: the steps above happen all the same. */
  predicate Proper(s: State, t: Tid, c: Choice) {
    Starts(c) ==> if c.Destroy? then MayDestroy(s, t) else Usable(s)
  }

  predicate Runs(s: State, t: Tid, c: Choice) { CanRun(s, t, c) && Proper(s, t, c) }

  /** Every call of the run was begun as callers have to. */
  ghost predicate Courteous(s: State, sched: seq<(Tid, Choice)>)
    requires Valid(s, sched)
  {
    sched == [] ||
    (var n := |sched| - 1;
     Courteous(s, sched[..n]) && Proper(Final(s, sched[..n]), sched[n].0, sched[n].1))
  }
}
