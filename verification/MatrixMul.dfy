/** Matrix multiplication, sequential and with the rows split over threads. */
module MatrixMul {
  import opened Basics
  import opened Blocks

  /** The first `k` terms of the dot product of row `i` of `a` and column `j` of `b`. */
  ghost function Dot(a: seq<seq<int>>, b: seq<seq<int>>, i: nat, j: nat, k: nat): int
    requires Square(a, |a|) && Square(b, |a|) && i < |a| && j < |a| && k <= |a|
  {
    if k == 0 then 0 else Dot(a, b, i, j, k - 1) + a[i][k - 1] * b[k - 1][j]
  }

  ghost predicate Square(a: seq<seq<int>>, n: nat) {
    |a| == n && forall i :: 0 <= i < n ==> |a[i]| == n
  }

  // ================================================================ sequential

  ghost function Rows(a: array2<int>): (r: seq<seq<int>>)
    requires a.Length0 == a.Length1
    reads a
    ensures Square(r, a.Length0)
    ensures forall i, j :: 0 <= i < a.Length0 && 0 <= j < a.Length0 ==> r[i][j] == a[i, j]
  {
    seq(a.Length0, i requires 0 <= i < a.Length0 reads a =>
      seq(a.Length0, j requires 0 <= j < a.Length0 reads a => a[i, j]))
  }

  /** The triple loop accumulates the product onto `c`. */
  method Multiply(a: array2<int>, b: array2<int>, c: array2<int>)
    requires a.Length0 == a.Length1 == b.Length0 == b.Length1 == c.Length0 == c.Length1
    requires a != c && b != c
    modifies c
    ensures forall x, y :: 0 <= x < c.Length0 && 0 <= y < c.Length0 ==>
      c[x, y] == old(c[x, y]) + Dot(Rows(a), Rows(b), x, y, c.Length0)
  {
    var n := c.Length0;
    ghost var ra, rb := Rows(a), Rows(b);
    for i := 0 to n
      invariant Rows(a) == ra && Rows(b) == rb
      invariant forall x, y :: 0 <= x < n && 0 <= y < n ==>
        c[x, y] == old(c[x, y]) + if x < i then Dot(ra, rb, x, y, n) else 0
    {
      for j := 0 to n
        invariant Rows(a) == ra && Rows(b) == rb
        invariant forall x, y :: 0 <= x < n && 0 <= y < n ==>
          c[x, y] == old(c[x, y]) + if x < i || (x == i && y < j) then Dot(ra, rb, x, y, n) else 0
      {
        for k := 0 to n
          invariant Rows(a) == ra && Rows(b) == rb
          invariant forall x, y :: 0 <= x < n && 0 <= y < n && !(x == i && y == j) ==>
            c[x, y] == old(c[x, y]) + if x < i || (x == i && y < j) then Dot(ra, rb, x, y, n) else 0
          invariant c[i, j] == old(c[i, j]) + Dot(ra, rb, i, j, k)
        {
          assert a[i, k] == ra[i][k] && b[k, j] == rb[k][j];
          c[i, j] := c[i, j] + a[i, k] * b[k, j];
        }
      }
    }
  }

  // ================================================================ threaded

  /** A thread's loop variables, and what it has loaded from `c[i][j]`, if it has. */
  datatype Thread = Thread(i: nat, j: nat, k: nat, loaded: Option<int>)

  datatype State = State(c: seq<seq<int>>, threads: seq<Thread>)

  /** The matrices and the number of threads (`NCORES`). */
  datatype Task = Task(a: seq<seq<int>>, b: seq<seq<int>>, cores: nat)

  ghost predicate Fits(p: Task) { p.cores > 0 && Square(p.a, |p.a|) && Square(p.b, |p.a|) }

  function RowsEach(p: Task): nat requires p.cores > 0 { |p.a| / p.cores }

  /** Thread `t` works on the rows from `Lo` up to, not including, `Hi`. */
  function Lo(p: Task, t: nat): nat requires p.cores > 0 { t * RowsEach(p) }

  function Hi(p: Task, t: nat): nat requires p.cores > 0 { t * RowsEach(p) + RowsEach(p) }

  ghost predicate OwnsRow(p: Task, t: nat, x: nat)
    requires p.cores > 0
  {
    t < p.cores && Lo(p, t) <= x < Hi(p, t)
  }

  ghost predicate Finished(p: Task, t: nat, th: Thread)
    requires p.cores > 0
  {
    th.i >= Hi(p, t)
  }

  ghost predicate InRange(th: Thread, lo: nat, hi: nat, n: nat) {
    th.i >= hi || (lo <= th.i && th.j < n && th.k < n)
  }

  ghost predicate Shape(p: Task, s: State) {
    && Fits(p) && |s.threads| == p.cores && Square(s.c, |p.a|)
    && (forall t :: 0 <= t < p.cores ==> InRange(s.threads[t], Lo(p, t), Hi(p, t), |p.a|))
    && (forall t :: 0 <= t < p.cores ==> Hi(p, t) <= |p.a|)
  }

  ghost predicate Enabled(p: Task, s: State, t: nat) {
    Shape(p, s) && t < p.cores && !Finished(p, t, s.threads[t])
  }

  function Advance(th: Thread, n: nat): Thread {
    if th.k + 1 < n then Thread(th.i, th.j, th.k + 1, None)
    else if th.j + 1 < n then Thread(th.i, th.j + 1, 0, None)
    else Thread(th.i + 1, 0, 0, None)
  }

  /** A load of `c[i][j]`, or the store of the loaded value plus `a[i][k] * b[k][j]`. */
  ghost function Next(p: Task, s: State, t: nat): State
    requires Enabled(p, s, t)
  {
    var th := s.threads[t];
    if th.loaded.None? then s.(threads := s.threads[t := th.(loaded := Some(s.c[th.i][th.j]))])
    else
      var v := th.loaded.value + p.a[th.i][th.k] * p.b[th.k][th.j];
      State(s.c[th.i := s.c[th.i][th.j := v]], s.threads[t := Advance(th, |p.a|)])
  }

  ghost predicate Init(p: Task, s: State, c0: seq<seq<int>>) {
    && Fits(p) && Square(c0, |p.a|) && s.c == c0 && |s.threads| == p.cores
    && forall t :: 0 <= t < p.cores ==> s.threads[t] == Thread(Lo(p, t), 0, 0, None)
  }

  ghost predicate Valid(p: Task, s: State, sched: seq<nat>)
    decreases |sched|, 0
  {
    sched == [] ||
    (Valid(p, s, sched[..|sched| - 1]) && Enabled(p, Final(p, s, sched[..|sched| - 1]), sched[|sched| - 1]))
  }

  ghost function Final(p: Task, s: State, sched: seq<nat>): State
    requires Valid(p, s, sched)
    decreases |sched|, 1
  {
    if sched == [] then s else Next(p, Final(p, s, sched[..|sched| - 1]), sched[|sched| - 1])
  }

  /** How many terms of cell `x, y` a thread has added. */
  function Added(th: Thread, x: nat, y: nat, n: nat): nat {
    if x < th.i || (x == th.i && y < th.j) then n else if x == th.i && y == th.j && th.k <= n then th.k else 0
  }

  ghost predicate CellOk(p: Task, s: State, c0: seq<seq<int>>, t: nat, x: nat, y: nat)
    requires Fits(p) && Square(s.c, |p.a|) && Square(c0, |p.a|) && t < |s.threads| && x < |p.a| && y < |p.a|
  {
    s.c[x][y] == c0[x][y] + Dot(p.a, p.b, x, y, Added(s.threads[t], x, y, |p.a|))
  }

  ghost predicate Inv(p: Task, s: State, c0: seq<seq<int>>) {
    && Shape(p, s) && Square(c0, |p.a|)
    && (forall t: nat, x: nat, y: nat :: OwnsRow(p, t, x) && x < |p.a| && y < |p.a| ==> CellOk(p, s, c0, t, x, y))
    && (forall x: nat, y: nat :: x < |p.a| && y < |p.a| && x >= p.cores * RowsEach(p) ==> s.c[x][y] == c0[x][y])
    && (forall t :: 0 <= t < p.cores ==> LoadedOk(p, s, t))
  }

  /** What a thread has loaded is still what the cell holds. */
  ghost predicate LoadedOk(p: Task, s: State, t: nat)
    requires Shape(p, s) && t < p.cores
  {
    var th := s.threads[t];
    th.loaded.Some? && !Finished(p, t, th) ==> th.loaded.value == s.c[th.i][th.j]
  }

  lemma RowOwnerUnique(p: Task, t: nat, u: nat, x: nat)
    requires p.cores > 0 && OwnsRow(p, t, x) && OwnsRow(p, u, x)
    ensures t == u
  {
    if t < u { Monotone(t, u, RowsEach(p)); } else if u < t { Monotone(u, t, RowsEach(p)); }
  }

  lemma OwnedRowsLow(p: Task, t: nat)
    requires p.cores > 0 && t < p.cores
    ensures Hi(p, t) <= p.cores * RowsEach(p) <= |p.a|
  {
    Monotone(t, p.cores, RowsEach(p));
    Division(p.cores, |p.a|);
  }

  lemma AdvanceInRange(th: Thread, lo: nat, hi: nat, n: nat)
    requires InRange(th, lo, hi, n)
    ensures InRange(Advance(th, n), lo, hi, n)
  {
  }

  lemma ShapeStep(p: Task, s: State, t: nat)
    requires Enabled(p, s, t)
    ensures Shape(p, Next(p, s, t))
  {
    AdvanceInRange(s.threads[t], Lo(p, t), Hi(p, t), |p.a|);
  }

  /** Only the cell at which thread `t` stands can change, and by its next term only. */
  lemma CellChange(p: Task, s: State, c0: seq<seq<int>>, t: nat, x: nat, y: nat)
    requires Inv(p, s, c0) && Enabled(p, s, t) && x < |p.a| && y < |p.a|
    ensures var th, s' := s.threads[t], Next(p, s, t);
      && Square(s'.c, |p.a|)
      && s'.c[x][y] == s.c[x][y] +
         if th.loaded.Some? && x == th.i && y == th.j then p.a[x][th.k] * p.b[th.k][y] else 0
  {
    assert LoadedOk(p, s, t);
  }

  lemma AddedStep(th: Thread, x: nat, y: nat, n: nat)
    requires th.j < n && th.k < n && y < n
    ensures Added(Advance(th, n), x, y, n) == Added(th, x, y, n) + if x == th.i && y == th.j then 1 else 0
  {
  }

  lemma CellStep(p: Task, s: State, c0: seq<seq<int>>, t: nat, u: nat, x: nat, y: nat)
    requires Inv(p, s, c0) && Enabled(p, s, t) && OwnsRow(p, u, x) && x < |p.a| && y < |p.a|
    ensures Shape(p, Next(p, s, t)) && CellOk(p, Next(p, s, t), c0, u, x, y)
  {
    ShapeStep(p, s, t);
    CellChange(p, s, c0, t, x, y);
    AddedStep(s.threads[t], x, y, |p.a|);
    assert CellOk(p, s, c0, u, x, y);
    if u != t && x == s.threads[t].i {
      assert OwnsRow(p, t, x);
      RowOwnerUnique(p, t, u, x);
    }
  }

  lemma LoadedStep(p: Task, s: State, c0: seq<seq<int>>, t: nat, u: nat)
    requires Inv(p, s, c0) && Enabled(p, s, t) && u < p.cores
    ensures Shape(p, Next(p, s, t)) && LoadedOk(p, Next(p, s, t), u)
  {
    ShapeStep(p, s, t);
    assert LoadedOk(p, s, u);
    if u != t && !Finished(p, u, s.threads[u]) {
      CellChange(p, s, c0, t, s.threads[u].i, s.threads[u].j);
      if s.threads[u].i == s.threads[t].i {
        assert OwnsRow(p, t, s.threads[t].i) && OwnsRow(p, u, s.threads[t].i);
        RowOwnerUnique(p, t, u, s.threads[t].i);
      }
    }
  }

  lemma StepInv(p: Task, s: State, c0: seq<seq<int>>, t: nat)
    requires Inv(p, s, c0) && Enabled(p, s, t)
    ensures Inv(p, Next(p, s, t), c0)
  {
    var s' := Next(p, s, t);
    ShapeStep(p, s, t);
    OwnedRowsLow(p, t);
    forall u: nat, x: nat, y: nat | OwnsRow(p, u, x) && x < |p.a| && y < |p.a| ensures CellOk(p, s', c0, u, x, y) {
      CellStep(p, s, c0, t, u, x, y);
    }
    forall u | 0 <= u < p.cores ensures LoadedOk(p, s', u) {
      LoadedStep(p, s, c0, t, u);
    }
  }

  lemma InitInv(p: Task, s: State, c0: seq<seq<int>>)
    requires Init(p, s, c0)
    ensures Inv(p, s, c0)
  {
    forall t | 0 <= t < p.cores ensures Hi(p, t) <= |p.a| && InRange(s.threads[t], Lo(p, t), Hi(p, t), |p.a|) {
      OwnedRowsLow(p, t);
    }
  }

  lemma {:induction false} RunInv(p: Task, s: State, sched: seq<nat>, c0: seq<seq<int>>)
    requires Init(p, s, c0) && Valid(p, s, sched)
    ensures Inv(p, Final(p, s, sched), c0)
  {
    if sched == [] {
      InitInv(p, s, c0);
    } else {
      RunInv(p, s, sched[..|sched| - 1], c0);
      StepInv(p, Final(p, s, sched[..|sched| - 1]), c0, sched[|sched| - 1]);
    }
  }

  /** The threaded product, under every interleaving of loads and stores: when all threads have
      finished, every cell of the first `cores * (N / cores)` rows has received its whole dot
      product, exactly as in the sequential program, and the rows after them nothing. */
  lemma ThreadedProduct(p: Task, s0: State, sched: seq<nat>, c0: seq<seq<int>>, x: nat, y: nat)
    requires Init(p, s0, c0) && Valid(p, s0, sched) && x < |p.a| && y < |p.a|
    requires forall t :: 0 <= t < |Final(p, s0, sched).threads| ==> Finished(p, t, Final(p, s0, sched).threads[t])
    ensures Square(Final(p, s0, sched).c, |p.a|)
    ensures Final(p, s0, sched).c[x][y] ==
      c0[x][y] + if Covered(|p.a|, p.cores, x) then Dot(p.a, p.b, x, y, |p.a|) else 0
  {
    RunInv(p, s0, sched, c0);
    if x < p.cores * (|p.a| / p.cores) {
      var t := Locate(x, |p.a| / p.cores, p.cores);
      assert OwnsRow(p, t, x);
      assert CellOk(p, Final(p, s0, sched), c0, t, x, y);
    }
  }

  predicate Covered(n: nat, cores: nat, x: nat) requires cores > 0 { x < cores * (n / cores) }

  /** So all rows are covered exactly if the thread count divides the size. */
  lemma AllRowsCovered(n: nat, cores: nat)
    requires cores > 0
    ensures (forall x :: 0 <= x < n ==> Covered(n, cores, x)) <==> n % cores == 0
  {
    Division(cores, n);
    if n % cores != 0 {
      assert !Covered(n, cores, n - 1);
    }
  }

  // ================================================================ exactly when it is the sequential result

  ghost predicate AllFinished(p: Task, s: State)
    requires p.cores > 0
  {
    forall t :: 0 <= t < |s.threads| ==> Finished(p, t, s.threads[t])
  }

  /** A run from `c0` to the end. */
  ghost predicate Complete(p: Task, s0: State, sched: seq<nat>, c0: seq<seq<int>>) {
    Init(p, s0, c0) && Valid(p, s0, sched) && AllFinished(p, Final(p, s0, sched))
  }

  ghost predicate SequentialResult(p: Task, c: seq<seq<int>>, c0: seq<seq<int>>)
    requires Fits(p) && Square(c0, |p.a|)
  {
    Square(c, |p.a|) && forall x, y :: 0 <= x < |p.a| && 0 <= y < |p.a| ==>
      c[x][y] == c0[x][y] + Dot(p.a, p.b, x, y, |p.a|)
  }

  /** Whatever the matrices and the schedule, the threads compute what the triple loop does. */
  ghost predicate AlwaysSequential(n: nat, cores: nat) {
    forall p: Task, s0, sched, c0 :: |p.a| == n && p.cores == cores && Complete(p, s0, sched, c0) ==>
      SequentialResult(p, Final(p, s0, sched).c, c0)
  }

  /** One more step of thread `t` brings it nearer to its end. */
  lemma OneStep(p: Task, s: State, t: nat)
    requires Enabled(p, s, t)
    ensures var s' := Next(p, s, t); var th, th' := s.threads[t], s'.threads[t];
      && |s'.threads| == |s.threads|
      && (forall u :: 0 <= u < |s.threads| && u != t ==> s'.threads[u] == s.threads[u])
      && Nearer(th, th')
  {
  }

  predicate Nearer(th: Thread, th': Thread) {
    || th'.i > th.i
    || (th'.i == th.i && th'.j > th.j)
    || (th'.i == th.i && th'.j == th.j && th'.k > th.k)
    || (th'.i == th.i && th'.j == th.j && th'.k == th.k && th.loaded.None? && th'.loaded.Some?)
  }

  lemma Extend(p: Task, s0: State, sched: seq<nat>, t: nat)
    requires Valid(p, s0, sched) && Enabled(p, Final(p, s0, sched), t)
    ensures Valid(p, s0, sched + [t]) && Final(p, s0, sched + [t]) == Next(p, Final(p, s0, sched), t)
  {
    assert (sched + [t])[..|sched|] == sched;
  }

  /** Any thread, now at `th`, can be run to its end, the others standing still. */
  lemma {:induction false} RunThread(p: Task, s0: State, sched: seq<nat>, c0: seq<seq<int>>, t: nat, th: Thread)
      returns (all: seq<nat>)
    requires Init(p, s0, c0) && Valid(p, s0, sched) && t < p.cores == |Final(p, s0, sched).threads|
    requires Final(p, s0, sched).threads[t] == th
    ensures Valid(p, s0, all) && |Final(p, s0, all).threads| == p.cores
    ensures Finished(p, t, Final(p, s0, all).threads[t])
    ensures forall u :: 0 <= u < p.cores && u != t ==>
      Final(p, s0, all).threads[u] == Final(p, s0, sched).threads[u]
    decreases Hi(p, t) - th.i, |p.a| - th.j, |p.a| - th.k, if th.loaded.None? then 1 else 0
  {
    RunInv(p, s0, sched, c0);
    if Finished(p, t, th) {
      all := sched;
    } else {
      var s := Final(p, s0, sched);
      assert InRange(s.threads[t], Lo(p, t), Hi(p, t), |p.a|);
      OneStep(p, s, t);
      Extend(p, s0, sched, t);
      all := RunThread(p, s0, sched + [t], c0, t, Next(p, s, t).threads[t]);
    }
  }

  lemma {:induction false} RunThreads(p: Task, s0: State, c0: seq<seq<int>>, n: nat) returns (all: seq<nat>)
    requires Init(p, s0, c0) && n <= p.cores
    ensures Valid(p, s0, all) && |Final(p, s0, all).threads| == p.cores
    ensures forall t :: 0 <= t < n ==> Finished(p, t, Final(p, s0, all).threads[t])
  {
    if n == 0 {
      all := [];
    } else {
      var some := RunThreads(p, s0, c0, n - 1);
      all := RunThread(p, s0, some, c0, n - 1, Final(p, s0, some).threads[n - 1]);
    }
  }

  ghost function Ones(n: nat): (a: seq<seq<int>>)
    ensures Square(a, n) && forall i, j :: 0 <= i < n && 0 <= j < n ==> a[i][j] == 1
  {
    seq(n, _ => seq(n, _ => 1))
  }

  lemma {:induction false} DotOnes(n: nat, i: nat, j: nat, k: nat)
    requires i < n && j < n && k <= n
    ensures Dot(Ones(n), Ones(n), i, j, k) == k
  {
    if k > 0 { DotOnes(n, i, j, k - 1); }
  }

  /** Matrices of ones show it when rows are left over: every complete run leaves the last row
      as it was. */
  lemma OnesDiffer(n: nat, cores: nat)
    requires cores > 0 && n % cores != 0
    ensures !AlwaysSequential(n, cores)
  {
    var p, c0 := Task(Ones(n), Ones(n), cores), Ones(n);
    var s0 := State(c0, seq(cores, t requires 0 <= t < cores => Thread(Lo(p, t), 0, 0, None)));
    var sched := RunThreads(p, s0, c0, cores);
    assert Complete(p, s0, sched, c0);
    Division(cores, n);
    ThreadedProduct(p, s0, sched, c0, n - 1, 0);
    DotOnes(n, n - 1, 0, n);
    assert !SequentialResult(p, Final(p, s0, sched).c, c0);
  }

  /** The threaded program computes what the sequential one does, for all matrices and in all
      runs, if and only if the thread count divides the size. */
  lemma SequentialIffDivides(n: nat, cores: nat)
    requires cores > 0
    ensures AlwaysSequential(n, cores) <==> n % cores == 0
  {
    if n % cores != 0 {
      OnesDiffer(n, cores);
    } else {
      AllRowsCovered(n, cores);
      forall p: Task, s0, sched, c0 | |p.a| == n && p.cores == cores && Complete(p, s0, sched, c0)
        ensures SequentialResult(p, Final(p, s0, sched).c, c0)
      {
        RunInv(p, s0, sched, c0);
        forall x, y | 0 <= x < n && 0 <= y < n
          ensures Final(p, s0, sched).c[x][y] == c0[x][y] + Dot(p.a, p.b, x, y, n)
        {
          assert Covered(n, cores, x);
          ThreadedProduct(p, s0, sched, c0, x, y);
        }
      }
    }
  }
}
