/** After `queue_close`: nothing runs for ever and nothing gets stuck. */
module QueueProgress {
  import opened Basics
  import opened Fifo
  import opened QueueMachine
  import opened QueueInvariants
  import opened QueueHistory

  /** How many statements lie ahead of a thread on a closed queue, not counting the work for
      the items that are queued. */
  function Rank(pc: Pc): nat {
    match pc
    case Idle | Done => 0
    case Enq(e, _, _) =>
      (match e
       case EAlloc => 22 case EData => 21 case ENext => 20 case ELock => 19 case ECheck => 18 case ELink => 17
       case ERear => 4 case ESize => 3 case ESignal => 2 case EUnlock => 1
       case EFree => 2 case EUnlockRejected => 1)
    case Deq(d, _, _) =>
      (match d
       case DWait => 7 case DAsleep => 6 case DWoken => 5 case DLock => 5 case DTest => 4 case DDecide => 3
       case DUnlockNull => 1 case DTake => 2 case DFront => 1
       case DRear => 12 case DSize => 11 case DUnlock => 10 case DRead => 9 case DFree => 8)
    case Work(w, _) => if w.WExec? then 7 else 6
    case Clo(k) => (match k case CLock => 4 case CSet => 3 case CBroadcast => 2 case CUnlock => 1)
    case Ask(_, a, _) => (match a case ALock => 3 case ARead => 2 case AUnlock => 1)
    case Des(x, _) => if x.XTest? then 2 else 1
  }

  function Ranks(ts: seq<Thread>): nat {
    if ts == [] then 0 else Ranks(ts[..|ts| - 1]) + Rank(ts[|ts| - 1].pc)
  }

  /** Serving one queued item takes twelve statements. */
  function Measure(s: State): nat { 12 * |s.h.items| + Ranks(s.threads) }

  lemma {:induction false} RanksUpdate(ts: seq<Thread>, t: Tid, th: Thread)
    requires t < |ts|
    ensures Ranks(ts[t := th]) == Ranks(ts) - Rank(ts[t].pc) + Rank(th.pc)
  {
    var n := |ts| - 1;
    if t < n {
      RanksUpdate(ts[..n], t, th);
      assert ts[t := th][..n] == ts[..n][t := th];
    } else {
      assert ts[t := th][..n] == ts[..n];
    }
  }

  lemma WakeRank(th: Thread)
    ensures Rank(Wake(th).pc) <= Rank(th.pc)
  {
  }

  lemma {:induction false} RanksWakeAll(ts: seq<Thread>)
    ensures Ranks(WakeAll(ts)) <= Ranks(ts)
  {
    if ts == [] {
    } else {
      RanksWakeAll(ts[..|ts| - 1]);
      WakeRank(ts[|ts| - 1]);
      assert WakeAll(ts)[..|ts| - 1] == WakeAll(ts[..|ts| - 1]);
    }
  }

  lemma RanksSignalled(ts: seq<Thread>, pc: Pc, c: Choice)
    ensures Ranks(Signalled(ts, pc, c)) <= Ranks(ts)
  {
    if AtSignal(pc) && c.WakeOne? && c.sleeper < |ts| {
      RanksUpdate(ts, c.sleeper, Wake(ts[c.sleeper]));
      WakeRank(ts[c.sleeper]);
    } else if pc.Clo? && pc.k.CBroadcast? {
      RanksWakeAll(ts);
    }
  }

  lemma EnqShrinks(m: Mem, h: Hist, me: Thread, c: Choice)
    requires me.pc.Enq? && CanStep(m, me, c)
    ensures var o := EnqStep(m, h, me, c); 12 * |o.h.items| + Rank(o.me.pc) < 12 * |h.items| + Rank(me.pc)
  {
  }

  lemma DeqShrinks(m: Mem, h: Hist, t: Tid, me: Thread)
    requires me.pc.Deq? && !Faults(m, me.pc) && m.closed && (me.pc.d.DFront? ==> h.items != [])
    ensures var o := DeqStep(m, h, t, me); 12 * |o.h.items| + Rank(o.me.pc) < 12 * |h.items| + Rank(me.pc)
  {
  }

  lemma OtherShrinks(m: Mem, h: Hist, t: Tid, me: Thread, c: Choice)
    requires !me.pc.Enq? && !me.pc.Deq? && !Outside(me.pc) && CanStep(m, me, c)
    requires me.pc.Des? ==> (me.pc.x.XTest? || me.pc.x.XFreeQueue?) && m.front.Null?
    ensures var o := Local(m, h, t, me, c); 12 * |o.h.items| + Rank(o.me.pc) < 12 * |h.items| + Rank(me.pc)
  {
  }

  /** On a closed queue every statement of a call in progress decreases the measure. */
  lemma Shrinks(s: State, t: Tid, c: Choice)
    requires Inv(s) && s.m.closed && Runs(s, t, c) && !Starts(c)
    ensures Next(s, t, c).m.closed && Measure(Next(s, t, c)) < Measure(s)
  {
    var s', me := Next(s, t, c), s.threads[t];
    assert Knows(s.m, s.h, me.pc);
    LocalFair(s, t, c);
    LocalStep(s, t, c);
    if me.pc.Enq? {
      EnqShrinks(s.m, s.h, me, c);
    } else if me.pc.Deq? {
      DeqShrinks(s.m, s.h, t, me);
    } else {
      OtherShrinks(s.m, s.h, t, me, c);
    }
    StaysOut(s, t, c);
    RanksSignalled(s.threads, me.pc, c);
    RanksUpdate(Signalled(s.threads, me.pc, c), t, s'.threads[t]);
  }

  /** There is always a free address. */
  lemma {:induction false} FreeNode(used: set<NodeId>) returns (n: NodeId)
    ensures n !in used && forall x :: x in used ==> x < n
    decreases |used|
  {
    if used == {} {
      n := 0;
    } else {
      var x :| x in used;
      n := FreeNode(used - {x});
      if n <= x { n := x + 1; }
      assert used == (used - {x}) + {x};
    }
  }

  /** A thread in a call can go on, unless it is asleep or another thread has the lock. */
  lemma CanGoOn(s: State, t: Tid) returns (c: Choice)
    requires t < |s.threads| && !Outside(s.threads[t].pc) && !Asleep(s.threads[t].pc)
    requires WantsLock(s.threads[t].pc) ==> s.owner.None?
    ensures Enabled(s, t, c) && !Starts(c)
  {
    var pc := s.threads[t].pc;
    if pc.Enq? && pc.e.EAlloc? {
      var n := FreeNode(s.m.heap.Keys);
      c := Malloc(n, Cell(pc.req, Null));
    } else if AtSignal(pc) {
      if u :| 0 <= u < |s.threads| && Asleep(s.threads[u].pc) { c := WakeOne(u); } else { c := WakeNone; }
    } else {
      c := Go;
    }
  }

  /** A lock that is taken is held by a thread that can go on; when the lock is free, nobody is
      asleep on a closed queue. */
  lemma WhoGoesOn(s: State, who: Tid) returns (t: Tid)
    requires LockInv(s) && WakeInv(s) && who < |s.threads| && !Outside(s.threads[who].pc)
    requires s.m.closed || !Asleep(s.threads[who].pc)
    ensures t < |s.threads| && !Outside(s.threads[t].pc) && !Asleep(s.threads[t].pc)
    ensures WantsLock(s.threads[t].pc) ==> s.owner.None?
  {
    if s.owner.Some? { t := s.owner.value; } else { t := who; }
  }

  /** Deadlock freedom: as long as any thread is inside a call and not asleep on an open queue,
      some call can proceed. */
  lemma NotStuck(s: State, who: Tid) returns (t: Tid, c: Choice)
    requires Inv(s) && who < |s.threads| && !Outside(s.threads[who].pc)
    requires s.m.closed || !Asleep(s.threads[who].pc)
    ensures Runs(s, t, c) && !Starts(c)
  {
    t := WhoGoesOn(s, who);
    c := CanGoOn(s, t);
    NoFault(s, t);
  }
}
