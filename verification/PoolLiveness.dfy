/** `thread_pool_destroy` can always get to its end: whatever has happened so far, the calls that
    have begun and the destroying thread can go on so that it returns. */
module PoolLiveness {
  import opened Basics
  import opened Fifo
  import opened QueueMachine
  import opened QueueInvariants
  import opened QueueHistory
  import opened QueueProgress
  import opened ThreadPool
  import opened PoolContract

  /** How many statements at most separate the lock owner from giving up the lock. */
  function LockRank(pc: Pc): nat {
    match pc
    case Enq(e, _, _) =>
      (match e
       case ECheck => 6 case ELink => 5 case ERear => 4 case ESize => 3 case ESignal => 2 case EUnlock => 1
       case EFree => 2 case EUnlockRejected => 1 case _ => 0)
    case Deq(d, _, _) =>
      (match d
       case DTest => 8 case DWait => 1 case DDecide => 7 case DUnlockNull => 1
       case DTake => 6 case DFront => 5 case DRear => 4 case DSize => 3 case DUnlock => 2 case _ => 0)
    case Clo(k) => (match k case CSet => 3 case CBroadcast => 2 case CUnlock => 1 case _ => 0)
    case Ask(_, a, _) => (match a case ARead => 2 case AUnlock => 1 case _ => 0)
    case _ => 0
  }

  lemma LockShrinks(m: Mem, h: Hist, t: Tid, me: Thread, c: Choice)
    requires CanStep(m, me, c) && InLock(me.pc)
    ensures var pc' := Local(m, h, t, me, c).me.pc;
      LockRank(if InLock(pc') then pc' else Idle) < LockRank(me.pc)
  {
  }

  lemma OwnerStep(s: State, t: Tid, c: Choice)
    requires LockInv(s) && CanRun(s, t, c) && s.owner == Some(t)
    ensures LockRank(OwnerPc(Next(s, t, c))) < LockRank(OwnerPc(s))
  {
    NextFramed(s, t, c);
    LockStep(s, t, Next(s, t, c));
    LockShrinks(s.m, s.h, t, s.threads[t], c);
  }

  lemma CloserStep(s: State, t: Tid, c: Choice)
    requires CanRun(s, t, c) && s.threads[t].pc.Clo?
    ensures Rank(Next(s, t, c).threads[t].pc) < Rank(s.threads[t].pc)
  {
  }

  ghost predicate CloseNearer(s: State, s': State) {
    && |s'.threads| == |s.threads| >= 2
    && (|| Rank(s'.threads[1].pc) < Rank(s.threads[1].pc)
        || (s'.threads[1] == s.threads[1] && LockRank(OwnerPc(s')) < LockRank(OwnerPc(s))))
  }

  lemma OwnerGoesOn(s: State, t: Tid, c: Choice)
    requires LockInv(s) && CanRun(s, t, c) && s.owner == Some(t) && t != 1 && |s.threads| >= 2
    requires !Asleep(s.threads[1].pc)
    ensures CloseNearer(s, Next(s, t, c))
  {
    NextFramed(s, t, c);
    OwnerStep(s, t, c);
  }

  /** The destroying thread is inside `queue_close`: it goes on, or the one it waits for does. */
  lemma CloseGoesOn(s: State) returns (t: Tid, c: Choice)
    requires SafeInv(s) && |s.threads| >= 2 && s.threads[1].pc.Clo?
    ensures CanRun(s, t, c) && !Starts(c) && CloseNearer(s, Next(s, t, c))
  {
    t := if s.owner.Some? then s.owner.value else 1;
    c := CanGoOn(s, t);
    NoFault(s, t);
    if t == 1 {
      CloserStep(s, t, c);
    } else {
      OwnerGoesOn(s, t, c);
    }
  }

  /** How far the destroying thread is from the joins. */
  function ToGo(p: Pool): int {
    var n := |p.queues|;
    match p.main
    case Serving => 2 * n + 2
    case Closing(i) => 2 * (n - i) + 1
    case InClose(i) => 2 * (n - i)
    case _ => 0
  }

  function CloserRank(p: Pool): nat {
    if p.main.InClose? && p.main.i < |p.queues| && |p.queues[p.main.i].threads| >= 2
    then Rank(p.queues[p.main.i].threads[1].pc) else 0
  }

  function OwnerRank(p: Pool): nat {
    if p.main.InClose? && p.main.i < |p.queues| then LockRank(OwnerPc(p.queues[p.main.i])) else 0
  }

  ghost predicate Nearer(p: Pool, p': Pool) {
    || ToGo(p') < ToGo(p)
    || (ToGo(p') == ToGo(p) && CloserRank(p') < CloserRank(p))
    || (ToGo(p') == ToGo(p) && CloserRank(p') == CloserRank(p) && OwnerRank(p') < OwnerRank(p))
  }

  lemma TowardsJoins(p: Pool) returns (a: Act)
    requires PoolInv(p) && !AllClosed(p)
    ensures CanAct(p, a) && Polite(p, a) && NoNewcomer(a) && Nearer(p, Do(p, a))
  {
    a := Advance;
    if p.main.InClose? && !p.queues[p.main.i].threads[1].pc.Idle? {
      var i := p.main.i;
      assert SlotInv(p.queues[i], Shutting);
      var t, c := CloseGoesOn(p.queues[i]);
      a := Step(i, t, c);
    } else if p.main.InClose? {
      assert SlotInv(p.queues[p.main.i], Shutting);
    } else if p.main.Closing? && p.main.i < |p.queues| {
      assert SlotInv(p.queues[p.main.i], Open);
      CanClose(p.queues[p.main.i]);
    }
  }

  predicate NoNewcomers(acts: seq<Act>) { forall i :: 0 <= i < |acts| ==> NoNewcomer(acts[i]) }

  lemma {:induction false} ReachJoins(p: Pool, acts: seq<Act>) returns (all: seq<Act>)
    requires PoolInv(p) && PoolValid(p, acts) && PoolPolite(p, acts) && NoNewcomers(acts)
    ensures PoolValid(p, all) && PoolPolite(p, all) && NoNewcomers(all) && AllClosed(PoolFinal(p, all))
    decreases ToGo(PoolFinal(p, acts)), CloserRank(PoolFinal(p, acts)), OwnerRank(PoolFinal(p, acts))
  {
    PoolRunInv(p, acts);
    if AllClosed(PoolFinal(p, acts)) {
      all := acts;
    } else {
      var a := TowardsJoins(PoolFinal(p, acts));
      Extend(p, acts, a);
      all := ReachJoins(p, acts + [a]);
    }
  }

  /** Once the queues are closed, something can happen, and it brings the end nearer. */
  lemma TowardsEnd(p: Pool) returns (a: Act)
    requires PoolInv(p) && AllClosed(p) && !p.main.Finished?
    ensures CanAct(p, a) && Polite(p, a) && NoNewcomer(a)
    ensures AllClosed(Do(p, a)) && 0 <= PoolMeasure(Do(p, a)) < PoolMeasure(p)
  {
    a := PoolNotStuck(p);
    ShutdownShrinks(p, a);
  }

  lemma OneMoreAct(p: Pool, acts: seq<Act>) returns (all: seq<Act>)
    requires PoolInv(p) && PoolValid(p, acts) && PoolPolite(p, acts) && NoNewcomers(acts)
    requires AllClosed(PoolFinal(p, acts)) && !PoolFinal(p, acts).main.Finished?
    ensures PoolValid(p, all) && PoolPolite(p, all) && NoNewcomers(all) && AllClosed(PoolFinal(p, all))
    ensures 0 <= PoolMeasure(PoolFinal(p, all)) < PoolMeasure(PoolFinal(p, acts))
  {
    PoolRunInv(p, acts);
    var a := TowardsEnd(PoolFinal(p, acts));
    Extend(p, acts, a);
    all := acts + [a];
  }

  lemma {:induction false} ReachEnd(p: Pool, acts: seq<Act>) returns (all: seq<Act>)
    requires PoolInv(p) && PoolValid(p, acts) && PoolPolite(p, acts) && NoNewcomers(acts)
    requires AllClosed(PoolFinal(p, acts))
    ensures PoolValid(p, all) && PoolPolite(p, all) && NoNewcomers(all) && PoolFinal(p, all).main.Finished?
    decreases PoolMeasure(PoolFinal(p, acts))
  {
    if PoolFinal(p, acts).main.Finished? {
      all := acts;
    } else {
      all := OneMoreAct(p, acts);
      all := ReachEnd(p, all);
    }
  }

  /** From every state of every polite run the pool can be destroyed, by the calls in progress and
      the destroying thread alone. */
  lemma CanAlwaysFinish(p0: Pool, acts: seq<Act>) returns (more: seq<Act>)
    requires PoolInit(p0) && PoolValid(p0, acts) && PoolPolite(p0, acts)
    ensures var p := PoolFinal(p0, acts);
      PoolValid(p, more) && PoolPolite(p, more) && NoNewcomers(more) && PoolFinal(p, more).main.Finished?
  {
    PoolInitInv(p0);
    PoolRunInv(p0, acts);
    more := ReachJoins(PoolFinal(p0, acts), []);
    more := ReachEnd(PoolFinal(p0, acts), more);
  }
}
