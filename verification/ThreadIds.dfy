/** How workers get their visible numbers: `local_id = thread_counter++` under a lock. */
module ThreadIds {
  import opened Basics
  import opened LockedSection

  /** The thread's register, then its `local_id`. */
  datatype Regs = Regs(r: int, id: int)

  /** Load the counter, store it incremented, keep the loaded value as the id. */
  function TakeNumber(): seq<Instr<int, Regs>> {
    [ (c: int, l: Regs) => (c, l.(r := c)),
      (c: int, l: Regs) => (l.r + 1, l),
      (c: int, l: Regs) => (c, l.(id := l.r)) ]
  }

  ghost function Starting(n: nat): Sys<int, Regs> {
    Sys(seq(n, i => TakeNumber()), seq(n, i => Regs(0, 0)))
  }

  lemma TakeNumberRun(c: int, l: Regs)
    ensures var (c', l') := RunAll(TakeNumber(), c, l); c' == c + 1 && l'.id == c
  {
    var p := TakeNumber();
    assert Run(p, 0, c, l) == (c, l);
    assert Run(p, 1, c, l) == (c, l.(r := c));
    assert Run(p, 2, c, l) == (c + 1, l.(r := c));
  }

  lemma {:induction false} CounterCounts(n: nat, order: seq<Tid>)
    requires forall i :: 0 <= i < |order| ==> order[i] < n
    ensures Serial(Starting(n), order, 1) == 1 + |order|
  {
    if order == [] {
    } else {
      CounterCounts(n, order[..|order| - 1]);
      TakeNumberRun(|order|, Regs(0, 0));
    }
  }

  predicate HasId(at: seq<At<Regs>>, t: Tid, id: int) {
    t < |at| && at[t].Left? && at[t].local.id == id
  }

  lemma IdOf(n: nat, s: State<int, Regs>, i: nat)
    requires Inv(Starting(n), s, 1) && i < |s.order| && s.at[s.order[i]].Left?
    ensures HasId(s.at, s.order[i], i + 1)
  {
    CounterCounts(n, s.order[..i]);
    TakeNumberRun(1 + i, Regs(0, 0));
  }

  /** For any start order and any interleaving the ids of the threads that have one are
      1, 2, 3, ... in the order in which they got the lock. */
  lemma IdsInLockOrder(n: nat, s0: State<int, Regs>, sched: seq<Tid>)
    requires Init(Starting(n), s0, 1) && Valid(Starting(n), s0, sched)
    ensures var s := Final(Starting(n), s0, sched);
      && |s.at| == n && Distinct(s.order, n)
      && (forall i :: 0 <= i < |s.order| && s.at[s.order[i]].Left? ==> HasId(s.at, s.order[i], i + 1))
  {
    RunInv(Starting(n), s0, sched, 1);
    var s := Final(Starting(n), s0, sched);
    forall i | 0 <= i < |s.order| && s.at[s.order[i]].Left? ensures HasId(s.at, s.order[i], i + 1) {
      IdOf(n, s, i);
    }
  }

  ghost predicate SomeoneHas(at: seq<At<Regs>>, id: int) { exists t :: HasId(at, t, id) }

  /** Every thread has one of the numbers 1..n, every number belongs to a thread, and no two
      threads share one. */
  ghost predicate Permutation(at: seq<At<Regs>>) {
    && (forall t :: 0 <= t < |at| ==> at[t].Left? && 1 <= at[t].local.id <= |at|)
    && (forall id {:trigger SomeoneHas(at, id)} :: 1 <= id <= |at| ==> SomeoneHas(at, id))
    && (forall t, u, id :: HasId(at, t, id) && HasId(at, u, id) ==> t == u)
  }

  lemma NumberedInOrder(at: seq<At<Regs>>, order: seq<Tid>)
    requires Distinct(order, |at|) && |order| == |at| && (forall t :: 0 <= t < |at| ==> t in order)
    requires forall i :: 0 <= i < |order| ==> HasId(at, order[i], i + 1)
    ensures Permutation(at)
  {
    forall t | 0 <= t < |at| ensures at[t].Left? && 1 <= at[t].local.id <= |at| && order[at[t].local.id - 1] == t {
      assert t in order;
      var i :| 0 <= i < |order| && order[i] == t;
      assert HasId(at, order[i], i + 1);
    }
    forall id | 1 <= id <= |at| ensures SomeoneHas(at, id) {
      assert HasId(at, order[id - 1], (id - 1) + 1);
    }
  }

  /** Every run comes to an end, after five steps of each thread, and then all `n` threads have
      started and the ids are a permutation of 1..n. */
  lemma IdsArePermutation(n: nat, s0: State<int, Regs>, sched: seq<Tid>)
    requires Init(Starting(n), s0, 1) && Valid(Starting(n), s0, sched)
    ensures |Final(Starting(n), s0, sched).at| == n && |sched| <= 5 * n
    ensures var s := Final(Starting(n), s0, sched);
      (|sched| == 5 * n <==> AtEnd(Starting(n), s)) && (AtEnd(Starting(n), s) <==> Permutation(s.at))
  {
    var s := Final(Starting(n), s0, sched);
    IdsInLockOrder(n, s0, sched);
    Serializable(Starting(n), s0, sched, 1);
    Terminates(Starting(n), s0, sched, 1);
    FiveEach(n, n);
    assert Starting(n).progs[..n] == Starting(n).progs;
    if AtEnd(Starting(n), s) { NumberedInOrder(s.at, s.order); }
  }

  lemma {:induction false} FiveEach(n: nat, k: nat)
    requires k <= n
    ensures Steps(Starting(n).progs[..k]) == 5 * k
  {
    if k > 0 {
      FiveEach(n, k - 1);
      assert Starting(n).progs[..k][..k - 1] == Starting(n).progs[..k - 1];
    }
  }
}
