/** What every step of the queue machine keeps.  Each thread's statement is first shown, on its
    own, to keep the linked list in order (`ListStep`), to reach a place whose facts hold
    (`KnowsStep`) and to honour a guarantee towards everybody else (`GuaranteeStep`).  The
    global invariant then follows without looking at pairs of statements. */
module QueueInvariants {
  import opened Basics
  import opened Fifo
  import opened QueueMachine

  // ================================================================ the linked list

  function At(fifo: seq<NodeId>, i: nat): Ptr {
    if i < |fifo| then To(fifo[i]) else Null
  }

  function Last(fifo: seq<NodeId>): Ptr {
    if fifo == [] then Null else To(fifo[|fifo| - 1])
  }

  /** The nodes of `fifo` are allocated, distinct, linked in this order up to NULL, and carry
      the requests `items`. */
  ghost predicate Chain(heap: map<NodeId, Cell>, fifo: seq<NodeId>, items: seq<Request>) {
    && |items| == |fifo|
    && (forall i :: 0 <= i < |fifo| ==> fifo[i] in heap && heap[fifo[i]] == Cell(items[i], At(fifo, i + 1)))
    && (forall i, j :: 0 <= i < j < |fifo| ==> fifo[i] != fifo[j])
  }

  /** How far `rear` is behind while the lock owner stands between its pointer writes. */
  ghost predicate RearInv(rear: Ptr, fifo: seq<NodeId>, pc: Pc) {
    if pc.Enq? && pc.e.ERear? then fifo != [] && rear == Last(fifo[..|fifo| - 1])
    else if pc.Deq? && pc.d.DRear? && fifo == [] then rear == To(pc.node)
    else rear == Last(fifo)
  }

  function SizeLag(pc: Pc): int {
    match pc
    case Enq(e, _, _) => if e.ERear? || e.ESize? then -1 else 0
    case Deq(d, _, _) => if d.DRear? || d.DSize? then 1 else 0
    case _ => 0
  }

  /** The list from `front` is the sequence `fifo`, `rear` its last node and `size` its length,
      up to what the lock owner, at `pc`, has still to write. */
  ghost predicate ListInv(m: Mem, h: Hist, pc: Pc) {
    && Chain(m.heap, h.fifo, h.items)
    && m.front == At(h.fifo, 0)
    && RearInv(m.rear, h.fifo, pc)
    && m.size == |h.fifo| + SizeLag(pc)
  }

  // ================================================================ what a place knows

  /** The node that only the thread at this place may touch. */
  function Private(pc: Pc): Ptr {
    match pc
    case Enq(e, n, _) =>
      if e.EData? || e.ENext? || e.ELock? || e.ECheck? || e.EFree? || e.ELink? then To(n) else Null
    case Deq(d, n, _) => if d.DRear? || d.DSize? || d.DUnlock? || d.DRead? || d.DFree? then To(n) else Null
    case _ => Null
  }

  /** Facts a thread may rely on at its place. */
  ghost predicate Knows(m: Mem, h: Hist, pc: Pc) {
    && (Private(pc).To? ==> Private(pc).id in m.heap && Private(pc).id !in h.fifo)
    && match pc
       case Enq(e, n, r) =>
         && (e.ENext? ==> m.heap[n].data == r)
         && (e.ELock? || e.ECheck? || e.ELink? ==> m.heap[n] == Cell(r, Null))
         && (e.ELink? || e.ERear? || e.ESize? || e.ESignal? || e.EUnlock? ==> !m.closed)
         && (e.EFree? || e.EUnlockRejected? ==> m.closed)
         && (e.ERear? ==> Last(h.fifo) == To(n))
       case Deq(d, n, g) =>
         && (d.DWait? ==> h.fifo == [] && !m.closed)
         && (d.DDecide? ==> h.fifo != [] || m.closed)
         && (d.DTake? ==> h.fifo != [])
         && (d.DFront? ==> h.fifo != [] && h.fifo[0] == n)
         && (Private(pc).To? ==> m.heap[n].data == g)
         && (d.DUnlockNull? ==> h.fifo == [] && m.closed)
       case Done => h.fifo == [] && m.closed
       case Clo(k) => k.CBroadcast? || k.CUnlock? ==> m.closed
       case Ask(q, a, answer) => a.AUnlock? ==> answer == if q.Size? then Number(|h.fifo|) else Flag(m.closed)
       case Des(x, _) => (x.XTest? || x.XFreeQueue?) && h.fifo == [] && m.closed
       case _ => true
  }

  /** What a statement may do to the things other threads rely on. */
  ghost predicate Guarantee(m: Mem, h: Hist, pc: Pc, m': Mem, h': Hist, pc': Pc) {
    // nodes that are not mine stay; their content too, if they are not linked
    && (forall n :: n in m.heap && To(n) != Private(pc) ==>
          n in m'.heap && (n !in h.fifo ==> m'.heap[n] == m.heap[n]))
    // what I own now I owned before, have just allocated, or have unlinked
    && (Private(pc').To? ==> Private(pc') == Private(pc) || Private(pc').id !in m.heap || Private(pc').id in h.fifo)
    // nodes appear only in my hands, and leave my hands into the list or to `free`
    && (forall n :: n in m'.heap && n !in m.heap ==> Private(pc') == To(n))
    && (Private(pc).To? && Private(pc') != Private(pc) ==> Private(pc).id !in m'.heap || Private(pc).id in h'.fifo)
    && (forall n :: n in h.fifo && n !in h'.fifo ==> Private(pc') == To(n))
    && (forall n :: n in h'.fifo && n !in h.fifo ==> Private(pc) == To(n))
    // the list and the flag change under the lock only; closing is for good
    && (!InLock(pc) ==> h'.fifo == h.fifo && m'.closed == m.closed)
    && (m.closed ==> m'.closed && (h.fifo == [] ==> h'.fifo == []))
  }

  // ================================================================ one thread at a time

  lemma ChainAppend(heap: map<NodeId, Cell>, fifo: seq<NodeId>, items: seq<Request>, n: NodeId, r: Request)
    requires Chain(heap, fifo, items) && n in heap && n !in fifo && heap[n] == Cell(r, Null)
    ensures fifo == [] ==> Chain(heap, fifo + [n], items + [r])
    ensures fifo != [] ==>
      var l := fifo[|fifo| - 1]; Chain(heap[l := heap[l].(next := To(n))], fifo + [n], items + [r])
  {
    if fifo != [] {
      var l := fifo[|fifo| - 1];
      var heap', fifo', items' := heap[l := heap[l].(next := To(n))], fifo + [n], items + [r];
      forall i | 0 <= i < |fifo'| ensures fifo'[i] in heap' && heap'[fifo'[i]] == Cell(items'[i], At(fifo', i + 1)) {
        assert i < |fifo| - 1 ==> fifo[i] != l;
      }
    }
  }

  lemma ChainDrop(heap: map<NodeId, Cell>, fifo: seq<NodeId>, items: seq<Request>)
    requires Chain(heap, fifo, items) && fifo != []
    ensures Chain(heap, fifo[1..], items[1..])
    ensures heap[fifo[0]] == Cell(items[0], At(fifo[1..], 0)) && fifo[0] !in fifo[1..]
    ensures Last(fifo) == if fifo[1..] == [] then To(fifo[0]) else Last(fifo[1..])
  {
    var f, g := fifo[1..], items[1..];
    forall i | 0 <= i < |f| ensures f[i] in heap && heap[f[i]] == Cell(g[i], At(f, i + 1)) {
      assert f[i] == fifo[i + 1];
    }
  }

  /** The place of the lock owner after a step. */
  function OwnerAfter(owner: Pc, pc: Pc, pc': Pc): Pc {
    if InLock(pc') then pc' else if InLock(pc) then Idle else owner
  }

  /** The step that links a node, into an empty list or behind the last node. */
  lemma LinkFirst(m: Mem, h: Hist, me: Thread, c: Choice)
    requires me.pc.Enq? && me.pc.e.ELink? && CanStep(m, me, c) && h.fifo == []
    requires ListInv(m, h, me.pc) && Knows(m, h, me.pc)
    ensures var o := EnqStep(m, h, me, c); ListInv(o.m, o.h, o.me.pc)
  {
    ChainAppend(m.heap, h.fifo, h.items, me.pc.node, me.pc.req);
    assert ([me.pc.node])[..0] == [];
  }

  lemma LinkNext(m: Mem, h: Hist, me: Thread, c: Choice)
    requires me.pc.Enq? && me.pc.e.ELink? && CanStep(m, me, c) && h.fifo != []
    requires ListInv(m, h, me.pc) && Knows(m, h, me.pc)
    ensures var o := EnqStep(m, h, me, c); ListInv(o.m, o.h, o.me.pc)
  {
    ChainAppend(m.heap, h.fifo, h.items, me.pc.node, me.pc.req);
    assert (h.fifo + [me.pc.node])[..|h.fifo|] == h.fifo;
  }

  /** Under the lock, the list is kept up to what the owner has still to write. */
  lemma EnqListLocked(m: Mem, h: Hist, me: Thread, c: Choice)
    requires me.pc.Enq? && CanStep(m, me, c) && InLock(me.pc)
    requires ListInv(m, h, me.pc) && Knows(m, h, me.pc)
    ensures var o := EnqStep(m, h, me, c); ListInv(o.m, o.h, OwnerAfter(me.pc, me.pc, o.me.pc))
  {
    if me.pc.e.ELink? {
      if h.fifo == [] { LinkFirst(m, h, me, c); } else { LinkNext(m, h, me, c); }
    }
  }

  lemma EnqListUnlocked(m: Mem, h: Hist, me: Thread, c: Choice, owner: Pc)
    requires me.pc.Enq? && CanStep(m, me, c) && !InLock(me.pc) && (me.pc.e.EAlloc? ==> c.node !in m.heap)
    requires ListInv(m, h, owner) && Knows(m, h, me.pc) && (WantsLock(me.pc) ==> owner.Idle?)
    ensures var o := EnqStep(m, h, me, c); ListInv(o.m, o.h, OwnerAfter(owner, me.pc, o.me.pc))
  {
  }

  /** The step that unlinks a node. */
  lemma Unlink(m: Mem, h: Hist, t: Tid, me: Thread)
    requires me.pc.Deq? && me.pc.d.DFront? && !Faults(m, me.pc)
    requires ListInv(m, h, me.pc) && Knows(m, h, me.pc)
    ensures var o := DeqStep(m, h, t, me); ListInv(o.m, o.h, o.me.pc)
  {
    ChainDrop(m.heap, h.fifo, h.items);
  }

  lemma DeqListLocked(m: Mem, h: Hist, t: Tid, me: Thread)
    requires me.pc.Deq? && !Faults(m, me.pc) && InLock(me.pc)
    requires ListInv(m, h, me.pc) && Knows(m, h, me.pc)
    ensures var o := DeqStep(m, h, t, me); ListInv(o.m, o.h, OwnerAfter(me.pc, me.pc, o.me.pc))
  {
    if me.pc.d.DFront? { Unlink(m, h, t, me); }
  }

  lemma DeqListUnlocked(m: Mem, h: Hist, t: Tid, me: Thread, owner: Pc)
    requires me.pc.Deq? && !Faults(m, me.pc) && !InLock(me.pc)
    requires ListInv(m, h, owner) && Knows(m, h, me.pc) && (WantsLock(me.pc) ==> owner.Idle?)
    ensures var o := DeqStep(m, h, t, me); ListInv(o.m, o.h, OwnerAfter(owner, me.pc, o.me.pc))
  {
  }

  lemma EnqKnows(m: Mem, h: Hist, me: Thread, c: Choice)
    requires me.pc.Enq? && CanStep(m, me, c) && (me.pc.e.EAlloc? ==> c.node !in m.heap)
    requires Chain(m.heap, h.fifo, h.items) && Knows(m, h, me.pc)
    requires InLock(me.pc) ==> ListInv(m, h, me.pc)
    ensures var o := EnqStep(m, h, me, c); Knows(o.m, o.h, o.me.pc)
  {
  }

  lemma EnqGuarantee(m: Mem, h: Hist, me: Thread, c: Choice)
    requires me.pc.Enq? && CanStep(m, me, c) && (me.pc.e.EAlloc? ==> c.node !in m.heap)
    requires Chain(m.heap, h.fifo, h.items) && Knows(m, h, me.pc)
    requires InLock(me.pc) ==> ListInv(m, h, me.pc)
    ensures var o := EnqStep(m, h, me, c); Guarantee(m, h, me.pc, o.m, o.h, o.me.pc)
  {
  }

  lemma DeqKnows(m: Mem, h: Hist, t: Tid, me: Thread)
    requires me.pc.Deq? && !Faults(m, me.pc) && Chain(m.heap, h.fifo, h.items) && Knows(m, h, me.pc)
    requires InLock(me.pc) ==> ListInv(m, h, me.pc)
    ensures var o := DeqStep(m, h, t, me); Knows(o.m, o.h, o.me.pc)
  {
    if me.pc.d.DFront? {
      ChainDrop(m.heap, h.fifo, h.items);
    }
  }

  /** The same step, towards the other threads. */
  lemma UnlinkGuarantee(m: Mem, h: Hist, t: Tid, me: Thread)
    requires me.pc.Deq? && me.pc.d.DFront? && !Faults(m, me.pc) && ListInv(m, h, me.pc) && Knows(m, h, me.pc)
    ensures var o := DeqStep(m, h, t, me); Guarantee(m, h, me.pc, o.m, o.h, o.me.pc)
  {
    Members(h.fifo);
  }

  lemma Members(s: seq<NodeId>)
    requires s != []
    ensures forall x :: x in s <==> x == s[0] || x in s[1..]
  {
    assert s == [s[0]] + s[1..];
  }

  lemma DeqGuarantee(m: Mem, h: Hist, t: Tid, me: Thread)
    requires me.pc.Deq? && !Faults(m, me.pc) && Knows(m, h, me.pc)
    requires InLock(me.pc) ==> ListInv(m, h, me.pc)
    ensures var o := DeqStep(m, h, t, me); Guarantee(m, h, me.pc, o.m, o.h, o.me.pc)
  {
    if me.pc.d.DFront? {
      UnlinkGuarantee(m, h, t, me);
    } else {
      KeepGuarantee(m, h, t, me);
    }
  }

  lemma KeepGuarantee(m: Mem, h: Hist, t: Tid, me: Thread)
    requires me.pc.Deq? && !me.pc.d.DFront? && !Faults(m, me.pc) && Knows(m, h, me.pc)
    ensures var o := DeqStep(m, h, t, me); Guarantee(m, h, me.pc, o.m, o.h, o.me.pc)
  {
    var o := DeqStep(m, h, t, me);
    assert o.h == h && o.m.closed == m.closed && o.m.heap == if me.pc.d.DFree? then m.heap - {me.pc.node} else m.heap;
  }

  /** All other statements: starting a call, working, closing, asking, destroying. */
  lemma OtherStep(m: Mem, h: Hist, t: Tid, me: Thread, c: Choice, owner: Pc)
    requires !me.pc.Enq? && !me.pc.Deq? && CanStep(m, me, c) && Knows(m, h, me.pc)
    requires me.pc.Idle? && (c.Destroy? || !Starts(c)) ==> h.fifo == [] && m.closed
    requires ListInv(m, h, owner) && (InLock(me.pc) ==> owner == me.pc) && (WantsLock(me.pc) ==> owner.Idle?)
    ensures var o := Local(m, h, t, me, c);
      && ListInv(o.m, o.h, OwnerAfter(owner, me.pc, o.me.pc))
      && Knows(o.m, o.h, o.me.pc)
      && Guarantee(m, h, me.pc, o.m, o.h, o.me.pc)
  {
    OtherChanges(m, h, t, me, c);
    OtherKnows(m, h, t, me, c);
  }

  /** They leave the list alone, and only a close sets the flag. */
  lemma OtherChanges(m: Mem, h: Hist, t: Tid, me: Thread, c: Choice)
    requires !me.pc.Enq? && !me.pc.Deq? && CanStep(m, me, c) && Knows(m, h, me.pc)
    ensures var o := Local(m, h, t, me, c);
      && o.m.heap == m.heap && o.m.front == m.front && o.m.rear == m.rear && o.m.size == m.size
      && o.h.fifo == h.fifo && o.h.items == h.items
      && o.m.closed == (m.closed || me.pc == Clo(CSet))
      && SizeLag(me.pc) == 0 && SizeLag(o.me.pc) == 0 && Private(me.pc) == Null && Private(o.me.pc) == Null
  {
  }

  lemma OtherKnows(m: Mem, h: Hist, t: Tid, me: Thread, c: Choice)
    requires !me.pc.Enq? && !me.pc.Deq? && CanStep(m, me, c) && Knows(m, h, me.pc) && m.front == At(h.fifo, 0)
    requires me.pc.Idle? && (c.Destroy? || !Starts(c)) ==> h.fifo == [] && m.closed
    requires me.pc.Ask? && InLock(me.pc) ==> m.size == |h.fifo|
    ensures var o := Local(m, h, t, me, c); Knows(o.m, o.h, o.me.pc)
  {
  }

  /** What others rely on survives a step that honours the guarantee. */
  lemma KnowsStable(m: Mem, h: Hist, pc: Pc, m': Mem, h': Hist, pc': Pc, other: Pc)
    requires Guarantee(m, h, pc, m', h', pc') && Knows(m, h, other)
    requires !(InLock(pc) && InLock(other)) && (Private(other).To? ==> Private(other) != Private(pc))
    requires !other.Des?
    ensures Knows(m', h', other)
  {
  }

  // ================================================================ all threads together

  /** The place of the lock owner; `Idle` when the lock is free. */
  function OwnerPc(s: State): Pc {
    if s.owner.Some? && s.owner.value < |s.threads| then s.threads[s.owner.value].pc else Idle
  }

  /** Mutual exclusion: the places between LOCK and UNLOCK belong to the lock owner. */
  ghost predicate LockInv(s: State) {
    && (forall t :: 0 <= t < |s.threads| && InLock(s.threads[t].pc) ==> s.owner == Some(t))
    && (s.owner.Some? ==> s.owner.value < |s.threads| && InLock(s.threads[s.owner.value].pc))
  }

  /** Every allocated node has exactly one owner: the list, or one thread.  (That a thread's
      node is not in the list is part of `Knows`.) */
  ghost predicate OwnInv(s: State) {
    && (forall t, u :: 0 <= t < u < |s.threads| ==>
          Private(s.threads[t].pc).Null? || Private(s.threads[t].pc) != Private(s.threads[u].pc))
    && (forall n :: n in s.m.heap && n !in s.h.fifo ==>
          exists t :: 0 <= t < |s.threads| && Private(s.threads[t].pc) == To(n))
  }

  ghost predicate PlaceInv(s: State) {
    && (forall t :: 0 <= t < |s.threads| ==> Knows(s.m, s.h, s.threads[t].pc))
    // while the queue is destroyed, and afterwards, nobody else is in a call
    && (forall t, u :: 0 <= t < |s.threads| && 0 <= u < |s.threads| && s.threads[t].pc.Des? && u != t ==>
          Outside(s.threads[u].pc))
    && (!s.m.alive ==> forall t :: 0 <= t < |s.threads| ==> Outside(s.threads[t].pc))
  }

  /** The part of the invariant that keeps memory safe and the list in order. */
  ghost predicate SafeInv(s: State) {
    LockInv(s) && ListInv(s.m, s.h, OwnerPc(s)) && OwnInv(s) && PlaceInv(s)
  }

  /** No thread is about to touch memory that is not there. */
  lemma NoFault(s: State, t: Tid)
    requires SafeInv(s) && t < |s.threads|
    ensures !Faults(s.m, s.threads[t].pc)
  {
    var pc := s.threads[t].pc;
    assert Knows(s.m, s.h, pc);
    assert InLock(pc) ==> OwnerPc(s) == pc;
  }

  /** One thread's step, seen from that thread. */
  ghost predicate StepOk(s: State, t: Tid, o: Out)
    requires t < |s.threads|
  {
    var pc := s.threads[t].pc;
    && ListInv(o.m, o.h, OwnerAfter(OwnerPc(s), pc, o.me.pc))
    && Knows(o.m, o.h, o.me.pc)
    && Guarantee(s.m, s.h, pc, o.m, o.h, o.me.pc)
  }

  lemma LocalStep(s: State, t: Tid, c: Choice)
    requires SafeInv(s) && Runs(s, t, c)
    ensures StepOk(s, t, Local(s.m, s.h, t, s.threads[t], c))
  {
    var me, owner := s.threads[t], OwnerPc(s);
    assert Knows(s.m, s.h, me.pc);
    assert InLock(me.pc) ==> owner == me.pc;
    if me.pc.Enq? {
      EnqKnows(s.m, s.h, me, c);
      EnqGuarantee(s.m, s.h, me, c);
      if InLock(me.pc) { EnqListLocked(s.m, s.h, me, c); } else { EnqListUnlocked(s.m, s.h, me, c, owner); }
    } else if me.pc.Deq? {
      DeqKnows(s.m, s.h, t, me);
      DeqGuarantee(s.m, s.h, t, me);
      if InLock(me.pc) { DeqListLocked(s.m, s.h, t, me); } else { DeqListUnlocked(s.m, s.h, t, me, owner); }
    } else {
      OtherStep(s.m, s.h, t, me, c, owner);
    }
  }

  /** What a step does to the lock and to the other threads: at most, sleepers wake. */
  ghost predicate Framed(s: State, t: Tid, s': State) {
    && t < |s.threads| == |s'.threads|
    && s'.owner == Holder(s.owner, t, s.threads[t].pc, s'.threads[t].pc)
    && (InLock(s'.threads[t].pc) && !InLock(s.threads[t].pc) ==> s.owner.None?)
    && (forall u :: 0 <= u < |s.threads| && u != t ==>
          s'.threads[u] == s.threads[u] || (Asleep(s.threads[u].pc) && s'.threads[u] == Wake(s.threads[u])))
  }

  lemma NextFramed(s: State, t: Tid, c: Choice)
    requires CanRun(s, t, c)
    ensures Framed(s, t, Next(s, t, c))
  {
  }

  lemma LockStep(s: State, t: Tid, s': State)
    requires LockInv(s) && Framed(s, t, s')
    ensures LockInv(s') && OwnerPc(s') == OwnerAfter(OwnerPc(s), s.threads[t].pc, s'.threads[t].pc)
  {
  }

  lemma OwnStep(s: State, t: Tid, s': State)
    requires OwnInv(s) && PlaceInv(s) && Framed(s, t, s')
    requires Guarantee(s.m, s.h, s.threads[t].pc, s'.m, s'.h, s'.threads[t].pc)
    ensures OwnInv(s')
  {
    forall u | 0 <= u < |s.threads| && u != t
      ensures Private(s'.threads[u].pc) == Private(s.threads[u].pc)
      ensures Private(s'.threads[u].pc).Null? || Private(s'.threads[u].pc) != Private(s'.threads[t].pc)
    {
      assert Knows(s.m, s.h, s.threads[u].pc);
    }
  }

  lemma PlaceStep(s: State, t: Tid, s': State, u: Tid)
    requires LockInv(s) && OwnInv(s) && PlaceInv(s) && Framed(s, t, s') && u < |s.threads| && u != t
    requires Guarantee(s.m, s.h, s.threads[t].pc, s'.m, s'.h, s'.threads[t].pc)
    requires s.threads[u].pc.Des? ==> Outside(s.threads[t].pc) && s'.m == s.m && s'.h == s.h
    ensures Knows(s'.m, s'.h, s'.threads[u].pc)
  {
    assert Knows(s.m, s.h, s.threads[u].pc);
    if !s.threads[u].pc.Des? {
      KnowsStable(s.m, s.h, s.threads[t].pc, s'.m, s'.h, s'.threads[t].pc, s.threads[u].pc);
    }
  }

  /** While the queue is being destroyed only the destroyer moves; once it is gone nobody does. */
  lemma DestroyAlone(s: State, t: Tid, c: Choice)
    requires PlaceInv(s) && Runs(s, t, c)
    ensures var s' := Next(s, t, c);
      && (forall u :: 0 <= u < |s.threads| && s.threads[u].pc.Des? ==> u == t)
      && (s'.threads[t].pc.Des? ==> forall u :: 0 <= u < |s.threads| && u != t ==> Outside(s'.threads[u].pc))
      && (!s'.m.alive ==> s.m.alive && forall u :: 0 <= u < |s.threads| ==> Outside(s'.threads[u].pc))
  {
  }

  /** Every step keeps memory safe and the list in order. */
  lemma SafeStep(s: State, t: Tid, c: Choice)
    requires SafeInv(s) && Runs(s, t, c)
    ensures SafeInv(Next(s, t, c))
  {
    var s' := Next(s, t, c);
    NextFramed(s, t, c);
    LocalStep(s, t, c);
    LockStep(s, t, s');
    OwnStep(s, t, s');
    DestroyAlone(s, t, c);
    forall u | 0 <= u < |s.threads| ensures Knows(s'.m, s'.h, s'.threads[u].pc) {
      if u != t { PlaceStep(s, t, s', u); }
    }
  }

  // ================================================================ wakeups

  predicate IsWoken(pc: Pc) { pc.Deq? && pc.d.DWoken? }

  /** Threads woken from the condition variable that have not re-checked the queue yet. */
  function Woken(ts: seq<Thread>): nat {
    if ts == [] then 0 else Woken(ts[..|ts| - 1]) + if IsWoken(ts[|ts| - 1].pc) then 1 else 0
  }

  /** The lock owner is about to take an item, or about to signal for one it has linked. */
  function Credit(pc: Pc): nat {
    match pc
    case Enq(e, _, _) => if e.ERear? || e.ESize? || e.ESignal? then 1 else 0
    case Deq(d, _, _) => if d.DTest? || d.DDecide? || d.DTake? || d.DFront? then 1 else 0
    case _ => 0
  }

  /** No wakeup is lost: while anybody sleeps, each queued item is matched by a thread that has
      been woken or by what the lock owner is about to do, and the queue is open unless its
      closer is about to broadcast. */
  ghost predicate WakeInv(s: State) {
    AnyAsleep(s.threads) ==>
      && |s.h.fifo| <= Woken(s.threads) + Credit(OwnerPc(s))
      && (s.m.closed ==> OwnerPc(s) == Clo(CBroadcast))
  }

  lemma {:induction false} WokenUpdate(ts: seq<Thread>, t: Tid, th: Thread)
    requires t < |ts|
    ensures Woken(ts[t := th]) == Woken(ts) - (if IsWoken(ts[t].pc) then 1 else 0) + if IsWoken(th.pc) then 1 else 0
  {
    var n := |ts| - 1;
    if t < n {
      WokenUpdate(ts[..n], t, th);
      assert ts[t := th][..n] == ts[..n][t := th];
    } else {
      assert ts[t := th][..n] == ts[..n];
    }
  }

  function Count(b: bool): nat { if b then 1 else 0 }

  predicate AtSignal(pc: Pc) { pc.Enq? && pc.e.ESignal? }

  /** What a statement may do to the balance of items and wakeups: the lock owner spends its
      credit only on taking an item or on a signal, a woken thread turns into credit when it
      gets the lock, and a thread falls asleep only on an empty open queue. */
  ghost predicate Fair(m: Mem, h: Hist, pc: Pc, m': Mem, h': Hist, pc': Pc) {
    && (InLock(pc) ==>
          || h'.fifo == []
          || |h'.fifo| + Credit(pc) <= |h.fifo| + Credit(OwnerAfter(pc, pc, pc')) + Count(AtSignal(pc)))
    && (!InLock(pc) ==> |h'.fifo| == |h.fifo| && m'.closed == m.closed)
    && (IsWoken(pc) ==> InLock(pc') && Credit(pc') == 1)
    && (Asleep(pc') ==> h'.fifo == [] && !m'.closed)
    && (m'.closed ==> m.closed || pc' == Clo(CBroadcast))
  }

  lemma EnqFair(m: Mem, h: Hist, me: Thread, c: Choice)
    requires me.pc.Enq? && CanStep(m, me, c)
    ensures var o := EnqStep(m, h, me, c); Fair(m, h, me.pc, o.m, o.h, o.me.pc)
  {
  }

  lemma DeqFair(m: Mem, h: Hist, t: Tid, me: Thread)
    requires me.pc.Deq? && !Faults(m, me.pc) && Knows(m, h, me.pc) && m.front == At(h.fifo, 0)
    ensures var o := DeqStep(m, h, t, me); Fair(m, h, me.pc, o.m, o.h, o.me.pc)
  {
  }

  lemma LocalFair(s: State, t: Tid, c: Choice)
    requires SafeInv(s) && Runs(s, t, c)
    ensures var o := Local(s.m, s.h, t, s.threads[t], c); Fair(s.m, s.h, s.threads[t].pc, o.m, o.h, o.me.pc)
  {
    var me := s.threads[t];
    assert Knows(s.m, s.h, me.pc);
    if me.pc.Enq? {
      EnqFair(s.m, s.h, me, c);
    } else if me.pc.Deq? {
      DeqFair(s.m, s.h, t, me);
    }
  }

  lemma WokenNext(s: State, t: Tid, c: Choice)
    requires Runs(s, t, c) && s.threads[t].pc != Clo(CBroadcast)
    ensures var s', pc := Next(s, t, c), s.threads[t].pc;
      Woken(s'.threads) == Woken(s.threads) - Count(IsWoken(pc)) + Count(IsWoken(s'.threads[t].pc))
                           + Count(AtSignal(pc) && c.WakeOne?)
  {
    var s', pc := Next(s, t, c), s.threads[t].pc;
    var ts := Signalled(s.threads, pc, c);
    WokenUpdate(ts, t, s'.threads[t]);
    if AtSignal(pc) && c.WakeOne? {
      WokenUpdate(s.threads, c.sleeper, Wake(s.threads[c.sleeper]));
    }
  }

  lemma WakeStep(s: State, t: Tid, c: Choice)
    requires SafeInv(s) && WakeInv(s) && Runs(s, t, c)
    ensures WakeInv(Next(s, t, c))
  {
    var s', pc := Next(s, t, c), s.threads[t].pc;
    NextFramed(s, t, c);
    LockStep(s, t, s');
    LocalFair(s, t, c);
    if pc == Clo(CBroadcast) {
      assert !AnyAsleep(s'.threads);
    } else {
      WokenNext(s, t, c);
      Balance(s, t, s', AtSignal(pc) && c.WakeOne?);
    }
  }

  /** The balance survives any framed step that is fair. */
  lemma Balance(s: State, t: Tid, s': State, signalled: bool)
    requires LockInv(s) && LockInv(s') && WakeInv(s) && Framed(s, t, s')
    requires Fair(s.m, s.h, s.threads[t].pc, s'.m, s'.h, s'.threads[t].pc)
    requires OwnerPc(s') == OwnerAfter(OwnerPc(s), s.threads[t].pc, s'.threads[t].pc)
    requires Woken(s'.threads) == Woken(s.threads) - Count(IsWoken(s.threads[t].pc))
                                  + Count(IsWoken(s'.threads[t].pc)) + Count(signalled)
    requires s.threads[t].pc != Clo(CBroadcast)
    requires AtSignal(s.threads[t].pc) && AnyAsleep(s.threads) ==> signalled
    ensures WakeInv(s')
  {
    if AnyAsleep(s'.threads) && !Asleep(s'.threads[t].pc) {
      var u :| 0 <= u < |s'.threads| && Asleep(s'.threads[u].pc);
      assert Asleep(s.threads[u].pc);
    }
  }
}
