/** Threads that each take one lock, run a straight-line program of individual loads and stores
    on a shared value, and release the lock.  The scheduler may switch threads between any two
    instructions.  The theorem: whatever the interleaving, the shared value and every thread's
    own results are those of running the programs one after the other. */
module LockedSection {

  import opened Basics

  /** One instruction: it sees the shared value and the thread's local variables. */
  type Instr<!V, !L> = (V, L) -> (V, L)

  /** The threads' programs and initial local variables. */
  datatype Sys<!V, !L> = Sys(progs: seq<seq<Instr<V, L>>>, locals: seq<L>)

  datatype At<+L> = Waiting | Inside(pc: nat, local: L) | Left(local: L)

  /** `order` is history: the threads in the order in which they got the lock. */
  datatype State<+V, +L> = State(shared: V, owner: Option<Tid>, at: seq<At<L>>, order: seq<Tid>)

  ghost predicate Fits<V, L>(sys: Sys<V, L>, s: State<V, L>) {
    |sys.progs| == |sys.locals| == |s.at|
  }

  ghost predicate Enabled<V, L>(sys: Sys<V, L>, s: State<V, L>, t: Tid) {
    && Fits(sys, s) && t < |s.at|
    && !s.at[t].Left?
    && (s.at[t].Waiting? ==> s.owner.None?)
    && (s.at[t].Inside? ==> s.at[t].pc <= |sys.progs[t]|)
  }

  ghost function Next<V, L>(sys: Sys<V, L>, s: State<V, L>, t: Tid): State<V, L>
    requires Enabled(sys, s, t)
  {
    match s.at[t]
    case Waiting => State(s.shared, Some(t), s.at[t := Inside(0, sys.locals[t])], s.order + [t])
    case Inside(pc, l) =>
      if pc == |sys.progs[t]| then State(s.shared, None, s.at[t := Left(l)], s.order)
      else
        var (v', l') := sys.progs[t][pc](s.shared, l);
        State(v', s.owner, s.at[t := Inside(pc + 1, l')], s.order)
    case Left(_) => s
  }

  ghost predicate Init<V(!new), L>(sys: Sys<V, L>, s: State<V, L>, v: V) {
    && Fits(sys, s) && s.shared == v && s.owner == None && s.order == []
    && forall t :: 0 <= t < |s.at| ==> s.at[t].Waiting?
  }

  ghost predicate Valid<V, L>(sys: Sys<V, L>, s: State<V, L>, sched: seq<Tid>)
    decreases |sched|, 0
  {
    sched == [] ||
    (Valid(sys, s, sched[..|sched| - 1]) && Enabled(sys, Final(sys, s, sched[..|sched| - 1]), sched[|sched| - 1]))
  }

  ghost function Final<V, L>(sys: Sys<V, L>, s: State<V, L>, sched: seq<Tid>): State<V, L>
    requires Valid(sys, s, sched)
    decreases |sched|, 1
  {
    if sched == [] then s else Next(sys, Final(sys, s, sched[..|sched| - 1]), sched[|sched| - 1])
  }

  // ================================================================ serial execution

  /** The first `k` instructions of `p`, run without interruption. */
  ghost function Run<V, L>(p: seq<Instr<V, L>>, k: nat, v: V, l: L): (V, L)
    requires k <= |p|
  {
    if k == 0 then (v, l) else var (v', l') := Run(p, k - 1, v, l); p[k - 1](v', l')
  }

  ghost function RunAll<V, L>(p: seq<Instr<V, L>>, v: V, l: L): (V, L) { Run(p, |p|, v, l) }

  ghost predicate Distinct(order: seq<Tid>, n: nat) {
    && (forall i :: 0 <= i < |order| ==> order[i] < n)
    && (forall i, j :: 0 <= i < j < |order| ==> order[i] != order[j])
  }

  /** The shared value after the threads in `order` have run one after the other. */
  ghost function Serial<V, L>(sys: Sys<V, L>, order: seq<Tid>, v: V): V
    requires |sys.progs| == |sys.locals| && forall i :: 0 <= i < |order| ==> order[i] < |sys.progs|
  {
    if order == [] then v
    else
      var n := |order| - 1;
      RunAll(sys.progs[order[n]], Serial(sys, order[..n], v), sys.locals[order[n]]).0
  }

  /** What the thread at position `i` of `order` finds in its local variables at the end. */
  ghost function Result<V, L>(sys: Sys<V, L>, order: seq<Tid>, i: nat, v: V): L
    requires i < |order| && |sys.progs| == |sys.locals| && forall i :: 0 <= i < |order| ==> order[i] < |sys.progs|
  {
    RunAll(sys.progs[order[i]], Serial(sys, order[..i], v), sys.locals[order[i]]).1
  }

  lemma {:induction false} RunConcat<V, L>(p: seq<Instr<V, L>>, q: seq<Instr<V, L>>, k: nat, v: V, l: L)
    requires k <= |p| + |q|
    ensures Run(p + q, k, v, l) ==
            if k <= |p| then Run(p, k, v, l) else var (v', l') := RunAll(p, v, l); Run(q, k - |p|, v', l')
  {
    if k > 0 { RunConcat(p, q, k - 1, v, l); }
  }

  // ================================================================ the invariant

  /** The threads that have finished form a serial run, and the lock owner, if any, is partway
      through its program on top of it. */
  ghost predicate Inv<V(!new), L(!new)>(sys: Sys<V, L>, s: State<V, L>, v: V) {
    && Fits(sys, s) && Distinct(s.order, |s.at|)
    && (forall t :: 0 <= t < |s.at| ==> (s.at[t].Inside? <==> s.owner == Some(t)))
    && (s.owner.Some? ==> s.owner.value < |s.at|)
    && (forall t :: 0 <= t < |s.at| ==> (s.at[t].Waiting? <==> t !in s.order))
    && (s.owner.None? ==> s.shared == Serial(sys, s.order, v))
    && (s.owner.Some? ==> Partway(sys, s, s.owner.value, v))
    && (forall i :: 0 <= i < |s.order| && s.at[s.order[i]].Left? ==>
          s.at[s.order[i]].local == Result(sys, s.order, i, v))
  }

  ghost predicate Partway<V(!new), L(!new)>(sys: Sys<V, L>, s: State<V, L>, t: Tid, v: V)
    requires Fits(sys, s) && t < |s.at| && Distinct(s.order, |s.at|)
  {
    var n := |s.order| - 1;
    && s.at[t].Inside? && s.at[t].pc <= |sys.progs[t]|
    && s.order != [] && s.order[n] == t
    && (s.shared, s.at[t].local) == Run(sys.progs[t], s.at[t].pc, Serial(sys, s.order[..n], v), sys.locals[t])
  }

  lemma LockStep<V(!new), L(!new)>(sys: Sys<V, L>, s: State<V, L>, t: Tid, v: V)
    requires Inv(sys, s, v) && Enabled(sys, s, t) && s.at[t].Waiting?
    ensures Inv(sys, Next(sys, s, t), v)
  {
    var s' := Next(sys, s, t);
    assert s'.order[..|s.order|] == s.order;
    forall i | 0 <= i < |s'.order| && s'.at[s'.order[i]].Left?
      ensures s'.at[s'.order[i]].local == Result(sys, s'.order, i, v)
    {
      assert i < |s.order| && s'.order[..i] == s.order[..i];
    }
  }

  lemma ExecStep<V(!new), L(!new)>(sys: Sys<V, L>, s: State<V, L>, t: Tid, v: V)
    requires Inv(sys, s, v) && Enabled(sys, s, t) && s.at[t].Inside? && s.at[t].pc < |sys.progs[t]|
    ensures Inv(sys, Next(sys, s, t), v)
  {
  }

  lemma UnlockStep<V(!new), L(!new)>(sys: Sys<V, L>, s: State<V, L>, t: Tid, v: V)
    requires Inv(sys, s, v) && Enabled(sys, s, t) && s.at[t].Inside? && s.at[t].pc == |sys.progs[t]|
    ensures Inv(sys, Next(sys, s, t), v)
  {
  }

  lemma {:induction false} RunInv<V(!new), L(!new)>(sys: Sys<V, L>, s: State<V, L>, sched: seq<Tid>, v: V)
    requires Init(sys, s, v) && Valid(sys, s, sched)
    ensures Inv(sys, Final(sys, s, sched), v)
  {
    if sched == [] {
    } else {
      var n := |sched| - 1;
      RunInv(sys, s, sched[..n], v);
      var mid := Final(sys, s, sched[..n]);
      match mid.at[sched[n]]
      case Waiting => LockStep(sys, mid, sched[n], v);
      case Inside(pc, _) =>
        if pc < |sys.progs[sched[n]]| { ExecStep(sys, mid, sched[n], v); } else { UnlockStep(sys, mid, sched[n], v); }
    }
  }

  // ================================================================ every run comes to an end

  /** How many steps lie ahead of a thread: to lock, one for each instruction, to unlock. */
  function Ahead<L>(length: nat, at: At<L>): int {
    match at
    case Waiting => length + 2
    case Inside(pc, _) => length - pc + 1
    case Left(_) => 0
  }

  ghost function AllAhead<V, L>(sys: Sys<V, L>, at: seq<At<L>>): int
    requires |at| <= |sys.progs|
  {
    if at == [] then 0
    else AllAhead(sys, at[..|at| - 1]) + Ahead(|sys.progs[|at| - 1]|, at[|at| - 1])
  }

  /** The length of a run in which every thread does all it has to. */
  ghost function Steps<V, L>(progs: seq<seq<Instr<V, L>>>): nat {
    if progs == [] then 0 else Steps(progs[..|progs| - 1]) + |progs[|progs| - 1]| + 2
  }

  lemma {:induction false} AheadUpdate<V, L>(sys: Sys<V, L>, at: seq<At<L>>, t: Tid, a: At<L>)
    requires t < |at| <= |sys.progs|
    ensures AllAhead(sys, at[t := a]) ==
            AllAhead(sys, at) - Ahead(|sys.progs[t]|, at[t]) + Ahead(|sys.progs[t]|, a)
  {
    var n := |at| - 1;
    if t < n {
      AheadUpdate(sys, at[..n], t, a);
      assert at[t := a][..n] == at[..n][t := a];
    } else {
      assert at[t := a][..n] == at[..n];
    }
  }

  lemma {:induction false} AheadAtFirst<V, L>(sys: Sys<V, L>, at: seq<At<L>>)
    requires |at| <= |sys.progs| && forall t :: 0 <= t < |at| ==> at[t].Waiting?
    ensures AllAhead(sys, at) == Steps(sys.progs[..|at|])
  {
    if at != [] {
      AheadAtFirst(sys, at[..|at| - 1]);
      assert sys.progs[..|at|][..|at| - 1] == sys.progs[..|at| - 1];
    }
  }

  /** As long as a thread has not left, there is something ahead. */
  lemma {:induction false} AheadPositive<V, L>(sys: Sys<V, L>, at: seq<At<L>>)
    requires |at| <= |sys.progs|
    requires forall t :: 0 <= t < |at| && at[t].Inside? ==> at[t].pc <= |sys.progs[t]|
    ensures AllAhead(sys, at) >= 0 && (AllAhead(sys, at) == 0 <==> forall t :: 0 <= t < |at| ==> at[t].Left?)
  {
    if at != [] {
      AheadPositive(sys, at[..|at| - 1]);
      assert (forall t :: 0 <= t < |at| ==> at[t].Left?) ==> at[|at| - 1].Left?;
    }
  }

  /** Each step brings the end nearer by one. */
  lemma {:induction false} StepsTaken<V(!new), L(!new)>(sys: Sys<V, L>, s: State<V, L>, sched: seq<Tid>, v: V)
    requires Init(sys, s, v) && Valid(sys, s, sched)
    ensures |Final(sys, s, sched).at| == |sys.progs|
    ensures |sched| + AllAhead(sys, Final(sys, s, sched).at) == Steps(sys.progs)
  {
    if sched == [] {
      AheadAtFirst(sys, s.at);
      assert sys.progs[..|s.at|] == sys.progs;
    } else {
      var n := |sched| - 1;
      StepsTaken(sys, s, sched[..n], v);
      var mid := Final(sys, s, sched[..n]);
      AheadUpdate(sys, mid.at, sched[n], Next(sys, mid, sched[n]).at[sched[n]]);
    }
  }

  /** No thread can take a step any more. */
  ghost predicate AtEnd<V, L>(sys: Sys<V, L>, s: State<V, L>) { forall t: Tid :: !Enabled(sys, s, t) }

  /** While a thread has not left, the owner of the lock can go on, or, if there is none, whoever
      waits for it can take it. */
  lemma SomebodyCan<V(!new), L(!new)>(sys: Sys<V, L>, s: State<V, L>, v: V, who: Tid) returns (t: Tid)
    requires Inv(sys, s, v) && who < |s.at| && !s.at[who].Left?
    ensures Enabled(sys, s, t)
  {
    if s.owner.Some? { t := s.owner.value; } else { t := who; }
  }

  lemma EndIfAllLeft<V(!new), L(!new)>(sys: Sys<V, L>, s: State<V, L>, v: V)
    requires Inv(sys, s, v)
    ensures AtEnd(sys, s) <==> forall t :: 0 <= t < |s.at| ==> s.at[t].Left?
    ensures AtEnd(sys, s) ==> s.owner.None? && |s.order| == |s.at|
  {
    if who :| 0 <= who < |s.at| && !s.at[who].Left? {
      var t := SomebodyCan(sys, s, v, who);
    } else {
      Everybody(s.order, |s.at|);
    }
  }

  /** Termination: no run is longer than the sum of all threads' instructions with one lock and
      one unlock each; a run has come to its end exactly if it is that long, exactly if every
      thread has left; then the lock is free and every thread has had it once. */
  lemma Terminates<V(!new), L(!new)>(sys: Sys<V, L>, s0: State<V, L>, sched: seq<Tid>, v: V)
    requires Init(sys, s0, v) && Valid(sys, s0, sched)
    ensures |sched| <= Steps(sys.progs)
    ensures var s := Final(sys, s0, sched);
      && (AtEnd(sys, s) <==> |sched| == Steps(sys.progs))
      && (AtEnd(sys, s) <==> forall t :: 0 <= t < |s.at| ==> s.at[t].Left?)
      && (AtEnd(sys, s) ==> s.owner.None? && |s.order| == |s.at| == |sys.progs|)
  {
    RunInv(sys, s0, sched, v);
    StepsTaken(sys, s0, sched, v);
    var s := Final(sys, s0, sched);
    AheadPositive(sys, s.at);
    EndIfAllLeft(sys, s, v);
  }

  /** Serializability: in every state in which the lock is free, the shared value is that of
      running the finished threads in the order in which they got the lock, and while it is
      held, that of the owner's program cut short on top of them; each finished thread has the
      results it has in that serial run.  A run that cannot go on has all of them finished, and
      then that order contains every thread exactly once. */
  lemma Serializable<V(!new), L(!new)>(sys: Sys<V, L>, s0: State<V, L>, sched: seq<Tid>, v: V)
    requires Init(sys, s0, v) && Valid(sys, s0, sched)
    ensures var s := Final(sys, s0, sched);
      && Fits(sys, s) && Distinct(s.order, |s.at|)
      && (s.owner.None? ==> s.shared == Serial(sys, s.order, v))
      && (s.owner.Some? ==> s.owner.value < |s.at| && Partway(sys, s, s.owner.value, v))
      && (forall t :: 0 <= t < |s.at| && s.at[t].Left? ==> t in s.order)
      && (forall i :: 0 <= i < |s.order| && s.at[s.order[i]].Left? ==>
            s.at[s.order[i]].local == Result(sys, s.order, i, v))
      && (AtEnd(sys, s) <==> forall t :: 0 <= t < |s.at| ==> s.at[t].Left?)
      && (AtEnd(sys, s) ==> s.owner.None? && |s.order| == |s.at|)
    ensures |sched| <= Steps(sys.progs)
  {
    RunInv(sys, s0, sched, v);
    Terminates(sys, s0, sched, v);
  }

  lemma {:induction false} Below(n: nat) returns (all: set<Tid>)
    ensures |all| == n && forall t :: t in all <==> 0 <= t < n
  {
    if n == 0 { all := {}; } else { all := Below(n - 1); all := all + {n - 1}; }
  }

  lemma {:induction false} SetOf(order: seq<Tid>, n: nat) returns (all: set<Tid>)
    requires Distinct(order, n)
    ensures |all| == |order| && forall t :: t in all <==> t in order
  {
    if order == [] {
      all := {};
    } else {
      all := SetOf(order[..|order| - 1], n);
      all := all + {order[|order| - 1]};
    }
  }

  /** A list of distinct threads that contains all `n` has length `n`. */
  lemma Everybody(order: seq<Tid>, n: nat)
    requires Distinct(order, n) && forall t :: 0 <= t < n ==> t in order
    ensures |order| == n
  {
    var a := SetOf(order, n);
    var b := Below(n);
    assert a == b;
  }
}
