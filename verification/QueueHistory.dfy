/** Where every request is, and in which order requests are served. */
module QueueHistory {
  import opened Basics
  import opened Fifo
  import opened QueueMachine
  import opened QueueInvariants

  // ================================================================ how requests move

  /** The request of a thread that has not been linked yet. */
  function Pending(pc: Pc): Option<Request> {
    match pc
    case Enq(e, _, r) =>
      if e.EAlloc? || e.EData? || e.ENext? || e.ELock? || e.ECheck? || e.ELink? then Some(r) else None
    case _ => None
  }

  /** The request of a thread that has been unlinked and not executed yet. */
  function Held(pc: Pc): Option<Request> {
    match pc
    case Deq(d, _, g) => if d.DRear? || d.DSize? || d.DUnlock? || d.DRead? || d.DFree? then Some(g) else None
    case Work(w, g) => if w.WExec? then Some(g) else None
    case _ => None
  }

  predicate Counting(pc: Pc) { pc.Work? && pc.w.WCount? }

  datatype Move =
    | Stay | Enter(r: Request) | Refuse(r: Request) | Link(r: Request) | Unlink(r: Request) | Execute(r: Request)

  function MoveOf(m: Mem, me: Thread, c: Choice): Move
    requires CanStep(m, me, c)
  {
    match me.pc
    case Idle => if c.Submit? then Enter(c.req) else Stay
    case Enq(e, _, r) => if e.ECheck? && m.closed then Refuse(r) else if e.ELink? then Link(r) else Stay
    case Deq(d, n, _) => if d.DFront? then Unlink(m.heap[n].data) else Stay
    case Work(w, g) => if w.WExec? then Execute(g) else Stay
    case _ => Stay
  }

  /** A move takes a request from exactly one place to the next and leaves all others alone. */
  ghost predicate Moves(h: Hist, t: Tid, me: Thread, h': Hist, me': Thread, mv: Move) {
    var p, p', g, g' := Pending(me.pc), Pending(me'.pc), Held(me.pc), Held(me'.pc);
    && h'.submitted == (if mv.Enter? then h.submitted + [mv.r] else h.submitted)
    && h'.rejected == (if mv.Refuse? then h.rejected + [mv.r] else h.rejected)
    && h'.accepted == (if mv.Link? then h.accepted + [mv.r] else h.accepted)
    && h'.taken == (if mv.Unlink? then h.taken + [(t, mv.r)] else h.taken)
    && (match mv
        case Link(r) => h'.items == h.items + [r]
        case Unlink(r) => h.items != [] && r == h.items[0] && h'.items == h.items[1..]
        case _ => h'.items == h.items)
    && me'.ran == (if mv.Execute? then me.ran + [mv.r] else me.ran)
    && (match mv
        case Enter(r) => p == None && p' == Some(r)
        case Refuse(r) => p == Some(r) && p' == None
        case Link(r) => p == Some(r) && p' == None
        case _ => p' == p)
    && (match mv
        case Unlink(r) => g == None && g' == Some(r)
        case Execute(r) => g == Some(r) && g' == None
        case _ => g' == g)
    && me'.processed + Count(Counting(me'.pc)) == me.processed + Count(Counting(me.pc)) + Count(mv.Execute?)
  }

  lemma EnqMoves(m: Mem, h: Hist, t: Tid, me: Thread, c: Choice)
    requires me.pc.Enq? && CanStep(m, me, c)
    ensures var o := EnqStep(m, h, me, c); Moves(h, t, me, o.h, o.me, MoveOf(m, me, c))
  {
  }

  lemma DeqMoves(m: Mem, h: Hist, t: Tid, me: Thread, c: Choice)
    requires me.pc.Deq? && CanStep(m, me, c) && Knows(m, h, me.pc) && Chain(m.heap, h.fifo, h.items)
    ensures var o := DeqStep(m, h, t, me); Moves(h, t, me, o.h, o.me, MoveOf(m, me, c))
  {
  }

  lemma OtherMoves(m: Mem, h: Hist, t: Tid, me: Thread, c: Choice)
    requires !me.pc.Enq? && !me.pc.Deq? && CanStep(m, me, c)
    ensures var o := Local(m, h, t, me, c); Moves(h, t, me, o.h, o.me, MoveOf(m, me, c))
  {
  }

  lemma LocalMoves(s: State, t: Tid, c: Choice)
    requires SafeInv(s) && Runs(s, t, c)
    ensures var me := s.threads[t]; var o := Local(s.m, s.h, t, me, c);
      Moves(s.h, t, me, o.h, o.me, MoveOf(s.m, me, c))
  {
    var me := s.threads[t];
    assert Knows(s.m, s.h, me.pc);
    if me.pc.Enq? {
      EnqMoves(s.m, s.h, t, me, c);
    } else if me.pc.Deq? {
      DeqMoves(s.m, s.h, t, me, c);
    } else {
      OtherMoves(s.m, s.h, t, me, c);
    }
  }

  // ================================================================ conservation

  /** How often `x` occurs in `s`. */
  function Occ(s: seq<Request>, x: Request): nat {
    if s == [] then 0 else Occ(s[..|s| - 1], x) + Count(s[|s| - 1] == x)
  }

  lemma OccSnoc(s: seq<Request>, r: Request, x: Request)
    ensures Occ(s + [r], x) == Occ(s, x) + Count(r == x)
  {
    assert (s + [r])[..|s|] == s;
  }

  lemma {:induction false} OccHead(s: seq<Request>, x: Request)
    requires s != []
    ensures Occ(s, x) == Count(s[0] == x) + Occ(s[1..], x)
  {
    if |s| == 1 {
      assert s[1..] == [];
    } else {
      var before, last := s[..|s| - 1], s[|s| - 1];
      OccHead(before, x);
      assert s[1..] == before[1..] + [last];
      OccSnoc(before[1..], last, x);
    }
  }

  lemma {:induction false} OccMultiset(s: seq<Request>, x: Request)
    ensures Occ(s, x) == multiset(s)[x]
  {
    if s == [] {
    } else {
      OccMultiset(s[..|s| - 1], x);
      assert s == s[..|s| - 1] + [s[|s| - 1]];
    }
  }

  /** How often `x` is pending in, held by or has been executed by a thread. */
  function Load(th: Thread, x: Request): nat {
    Count(Pending(th.pc) == Some(x)) + Count(Held(th.pc) == Some(x)) + Occ(th.ran, x)
  }

  function Loads(ts: seq<Thread>, x: Request): nat {
    if ts == [] then 0 else Loads(ts[..|ts| - 1], x) + Load(ts[|ts| - 1], x)
  }

  /** Every submitted request is in exactly one place: rejected, queued, in the hands of one
      thread, or executed. */
  ghost predicate ConserveInv(s: State) {
    forall x :: Occ(s.h.submitted, x) == Occ(s.h.rejected, x) + Occ(s.h.items, x) + Loads(s.threads, x)
  }

  lemma {:induction false} LoadsUpdate(ts: seq<Thread>, t: Tid, th: Thread, x: Request)
    requires t < |ts|
    ensures Loads(ts[t := th], x) == Loads(ts, x) - Load(ts[t], x) + Load(th, x)
  {
    var n := |ts| - 1;
    if t < n {
      LoadsUpdate(ts[..n], t, th, x);
      assert ts[t := th][..n] == ts[..n][t := th];
    } else {
      assert ts[t := th][..n] == ts[..n];
    }
  }

  lemma WakeLoad(th: Thread, x: Request)
    ensures Load(Wake(th), x) == Load(th, x)
  {
  }

  lemma {:induction false} LoadsWakeAll(ts: seq<Thread>, x: Request)
    ensures Loads(WakeAll(ts), x) == Loads(ts, x)
  {
    if ts == [] {
    } else {
      LoadsWakeAll(ts[..|ts| - 1], x);
      WakeLoad(ts[|ts| - 1], x);
      assert WakeAll(ts)[..|ts| - 1] == WakeAll(ts[..|ts| - 1]);
    }
  }

  lemma LoadsSignalled(ts: seq<Thread>, pc: Pc, c: Choice, x: Request)
    ensures Loads(Signalled(ts, pc, c), x) == Loads(ts, x)
  {
    if AtSignal(pc) && c.WakeOne? && c.sleeper < |ts| {
      LoadsUpdate(ts, c.sleeper, Wake(ts[c.sleeper]), x);
      WakeLoad(ts[c.sleeper], x);
    } else if pc.Clo? && pc.k.CBroadcast? {
      LoadsWakeAll(ts, x);
    }
  }

  /** A move neither loses nor doubles a request. */
  lemma MoveBalance(h: Hist, t: Tid, me: Thread, h': Hist, me': Thread, mv: Move, x: Request)
    requires Moves(h, t, me, h', me', mv)
    ensures Occ(h'.submitted, x) + Occ(h.rejected, x) + Occ(h.items, x) + Load(me, x)
         == Occ(h.submitted, x) + Occ(h'.rejected, x) + Occ(h'.items, x) + Load(me', x)
  {
    match mv
    case Stay =>
    case Enter(r) => OccSnoc(h.submitted, r, x);
    case Refuse(r) => OccSnoc(h.rejected, r, x);
    case Link(r) => OccSnoc(h.items, r, x);
    case Unlink(r) => OccHead(h.items, x);
    case Execute(r) => OccSnoc(me.ran, r, x);
  }

  /** A thread does not wake itself. */
  lemma StaysOut(s: State, t: Tid, c: Choice)
    requires CanRun(s, t, c)
    ensures Signalled(s.threads, s.threads[t].pc, c)[t] == s.threads[t]
  {
  }

  lemma ConserveStep(s: State, t: Tid, c: Choice)
    requires SafeInv(s) && ConserveInv(s) && Runs(s, t, c)
    ensures ConserveInv(Next(s, t, c))
  {
    var s', me := Next(s, t, c), s.threads[t];
    LocalMoves(s, t, c);
    StaysOut(s, t, c);
    forall x ensures Occ(s'.h.submitted, x) == Occ(s'.h.rejected, x) + Occ(s'.h.items, x) + Loads(s'.threads, x) {
      MoveBalance(s.h, t, me, s'.h, s'.threads[t], MoveOf(s.m, me, c), x);
      LoadsSignalled(s.threads, me.pc, c, x);
      LoadsUpdate(Signalled(s.threads, me.pc, c), t, s'.threads[t], x);
    }
  }

  // ================================================================ order

  function Requests(taken: seq<(Tid, Request)>): seq<Request> {
    if taken == [] then [] else Requests(taken[..|taken| - 1]) + [taken[|taken| - 1].1]
  }

  function TakenBy(taken: seq<(Tid, Request)>, t: Tid): seq<Request> {
    if taken == [] then []
    else TakenBy(taken[..|taken| - 1], t) + if taken[|taken| - 1].0 == t then [taken[|taken| - 1].1] else []
  }

  function InHand(pc: Pc): seq<Request> { if Held(pc).Some? then [Held(pc).value] else [] }

  /** What a thread has executed, and then holds, is what it took, in the order it took it. */
  ghost predicate InOrder(h: Hist, t: Tid, me: Thread) {
    && TakenBy(h.taken, t) == me.ran + InHand(me.pc)
    && |me.ran| == me.processed + Count(Counting(me.pc))
  }

  ghost predicate OrderInv(s: State) {
    && s.h.accepted == Requests(s.h.taken) + s.h.items
    && (forall t :: 0 <= t < |s.threads| ==> InOrder(s.h, t, s.threads[t]))
  }

  lemma TakenSnoc(taken: seq<(Tid, Request)>, t: Tid, r: Request, u: Tid)
    ensures Requests(taken + [(t, r)]) == Requests(taken) + [r]
    ensures TakenBy(taken + [(t, r)], u) == if u == t then TakenBy(taken, u) + [r] else TakenBy(taken, u)
  {
    assert (taken + [(t, r)])[..|taken|] == taken;
  }

  lemma MoveAccepted(h: Hist, t: Tid, me: Thread, h': Hist, me': Thread, mv: Move)
    requires Moves(h, t, me, h', me', mv) && h.accepted == Requests(h.taken) + h.items
    ensures h'.accepted == Requests(h'.taken) + h'.items
  {
    match mv
    case Link(r) =>
      assert Requests(h.taken) + (h.items + [r]) == (Requests(h.taken) + h.items) + [r];
    case Unlink(r) =>
      TakenSnoc(h.taken, t, r, t);
      ShiftHead(Requests(h.taken), h.items);
    case _ =>
  }

  lemma MoveMine(h: Hist, t: Tid, me: Thread, h': Hist, me': Thread, mv: Move)
    requires Moves(h, t, me, h', me', mv) && InOrder(h, t, me)
    ensures InOrder(h', t, me')
  {
    if mv.Unlink? {
      TakenSnoc(h.taken, t, mv.r, t);
    }
  }

  lemma MoveOthers(h: Hist, t: Tid, me: Thread, h': Hist, me': Thread, mv: Move, u: Tid)
    requires Moves(h, t, me, h', me', mv) && u != t
    ensures TakenBy(h'.taken, u) == TakenBy(h.taken, u)
  {
    if mv.Unlink? {
      TakenSnoc(h.taken, t, mv.r, u);
    }
  }

  lemma OthersInOrder(s: State, t: Tid, s': State, mv: Move, u: Tid)
    requires OrderInv(s) && Framed(s, t, s') && Moves(s.h, t, s.threads[t], s'.h, s'.threads[t], mv)
    requires u < |s.threads| && u != t
    ensures InOrder(s'.h, u, s'.threads[u])
  {
    assert InOrder(s.h, u, s.threads[u]);
    MoveOthers(s.h, t, s.threads[t], s'.h, s'.threads[t], mv, u);
  }

  lemma OrderStep(s: State, t: Tid, c: Choice)
    requires SafeInv(s) && OrderInv(s) && Runs(s, t, c)
    ensures OrderInv(Next(s, t, c))
  {
    var s', mv := Next(s, t, c), MoveOf(s.m, s.threads[t], c);
    LocalMoves(s, t, c);
    NextFramed(s, t, c);
    MoveAccepted(s.h, t, s.threads[t], s'.h, s'.threads[t], mv);
    MoveMine(s.h, t, s.threads[t], s'.h, s'.threads[t], mv);
    forall u | 0 <= u < |s.threads| && u != t ensures InOrder(s'.h, u, s'.threads[u]) {
      OthersInOrder(s, t, s', mv, u);
    }
  }

  // ================================================================ the whole invariant

  ghost predicate Inv(s: State) {
    SafeInv(s) && WakeInv(s) && ConserveInv(s) && OrderInv(s)
  }

  lemma {:induction false} NoLoads(ts: seq<Thread>, x: Request)
    requires forall t :: 0 <= t < |ts| ==> Fresh(ts[t])
    ensures Loads(ts, x) == 0
  {
    if ts != [] {
      NoLoads(ts[..|ts| - 1], x);
    }
  }

  lemma InitSafe(s: State)
    requires Init(s)
    ensures SafeInv(s) && WakeInv(s)
  {
    forall t | 0 <= t < |s.threads| ensures Knows(s.m, s.h, s.threads[t].pc) && !InLock(s.threads[t].pc)
      && Private(s.threads[t].pc).Null? && !s.threads[t].pc.Des? && !Asleep(s.threads[t].pc)
    {
      assert Fresh(s.threads[t]);
    }
  }

  lemma InitInv(s: State)
    requires Init(s)
    ensures Inv(s)
  {
    InitSafe(s);
    forall x ensures Loads(s.threads, x) == 0 { NoLoads(s.threads, x); }
    forall t | 0 <= t < |s.threads| ensures InOrder(s.h, t, s.threads[t]) {
      assert Fresh(s.threads[t]);
    }
  }

  /** Every step of every thread keeps the whole invariant. */
  lemma StepInv(s: State, t: Tid, c: Choice)
    requires Inv(s) && Runs(s, t, c)
    ensures Inv(Next(s, t, c))
  {
    SafeStep(s, t, c);
    WakeStep(s, t, c);
    ConserveStep(s, t, c);
    OrderStep(s, t, c);
  }

  /** Hence every run keeps it, if callers observe what they have to. */
  lemma {:induction false} RunInv(s: State, sched: seq<(Tid, Choice)>)
    requires Inv(s) && Valid(s, sched) && Courteous(s, sched)
    ensures Inv(Final(s, sched))
  {
    if sched == [] {
    } else {
      RunInv(s, sched[..|sched| - 1]);
      StepInv(Final(s, sched[..|sched| - 1]), sched[|sched| - 1].0, sched[|sched| - 1].1);
    }
  }
}
