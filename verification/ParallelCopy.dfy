/** The multithreaded file copy: the file is cut into one range per thread plus a remainder for
    the last thread, and every thread copies its ranges with positioned reads and writes. */
module ParallelCopy {
  import opened Basics
  import opened Blocks

  /** `struct stToThread`, without the file descriptors. */
  datatype ToThread = ToThread(thrdnum: nat, thrdtotal: nat, startOffset: nat, len: nat, rem: nat)

  datatype Range = Range(off: nat, len: nat)

  // ================================================================ the plan

  function Share(i: nat, n: nat, size: nat): ToThread
    requires n > 0
  {
    ToThread(i, n, i * (size / n), size / n, size % n)
  }

  /** The creation loop of `do_mt_copy`. */
  method Plan(n: nat, size: nat) returns (toThread: array<ToThread>)
    requires n > 0
    ensures fresh(toThread) && toThread.Length == n
    ensures forall i :: 0 <= i < n ==> toThread[i] == Share(i, n, size)
  {
    var rem := size % n;
    toThread := new ToThread[n](_ => ToThread(0, 0, 0, 0, 0));
    for i := 0 to n
      invariant forall k :: 0 <= k < i ==> toThread[k] == Share(k, n, size)
    {
      toThread[i] := ToThread(i, n, i * (size / n), size / n, rem);
    }
  }

  /** The ranges a worker copies, in order: its share, then, in the last thread, the rest. */
  function Ranges(w: ToThread): seq<Range> {
    [Range(w.startOffset, w.len)] +
    if w.rem != 0 && w.thrdnum == w.thrdtotal - 1 then [Range(w.startOffset + w.len, w.rem)] else []
  }

  predicate Covers(r: Range, p: nat) { r.off <= p < r.off + r.len }

  /** Byte `p` belongs to the `k`-th range of thread `i`. */
  predicate Owns(n: nat, size: nat, i: nat, k: nat, p: nat)
    requires n > 0
  {
    i < n && k < |Ranges(Share(i, n, size))| && Covers(Ranges(Share(i, n, size))[k], p)
  }

  ghost predicate Owned(n: nat, size: nat, p: nat)
    requires n > 0
  {
    exists i: nat, k: nat :: Owns(n, size, i, k, p)
  }

  /** Everything a thread copies lies inside the file. */
  lemma Inside(n: nat, size: nat, i: nat, k: nat)
    requires n > 0 && i < n && k < |Ranges(Share(i, n, size))|
    ensures var r := Ranges(Share(i, n, size))[k]; r.off + r.len <= size
  {
    Division(n, size);
    if i < n - 1 { Monotone(i, n - 1, size / n); }
  }

  lemma OwnerFound(n: nat, size: nat, p: nat) returns (i: nat, k: nat)
    requires n > 0 && p < size
    ensures Owns(n, size, i, k, p)
  {
    Division(n, size);
    if p < n * (size / n) {
      i := Locate(p, size / n, n);
      k := 0;
    } else {
      i, k := n - 1, 1;
    }
  }

  lemma OwnerUnique(n: nat, size: nat, i: nat, k: nat, j: nat, l: nat, p: nat)
    requires n > 0 && Owns(n, size, i, k, p) && Owns(n, size, j, l, p)
    ensures i == j && k == l
  {
    Division(n, size);
    var q := size / n;
    if i < j { Monotone(i, j, q); } else if j < i { Monotone(j, i, q); }
  }

  /** The ranges tile the file, for every size and thread count, sizes below the thread count
      included: each byte below `size` belongs to exactly one range of exactly one thread, and
      no range reaches beyond the file. */
  lemma Tiling(n: nat, size: nat)
    requires n > 0
    ensures forall p :: 0 <= p < size ==> Owned(n, size, p)
    ensures forall i: nat, k: nat, j: nat, l: nat, p: nat ::
      Owns(n, size, i, k, p) && Owns(n, size, j, l, p) ==> i == j && k == l
    ensures forall i: nat, k: nat, p: nat :: Owns(n, size, i, k, p) ==> p < size
  {
    forall p | 0 <= p < size ensures Owned(n, size, p) {
      var i, k := OwnerFound(n, size, p);
    }
    forall i: nat, k: nat, j: nat, l: nat, p: nat | Owns(n, size, i, k, p) && Owns(n, size, j, l, p)
      ensures i == j && k == l
    {
      OwnerUnique(n, size, i, k, j, l, p);
    }
    forall i: nat, k: nat, p: nat | Owns(n, size, i, k, p) ensures p < size {
      Inside(n, size, i, k);
    }
  }

  // ================================================================ files

  function Min(a: nat, b: nat): nat { if a < b then a else b }

  /** `pread`, transferring everything available. */
  function PRead(file: seq<Byte>, off: nat, len: nat): seq<Byte> {
    file[Min(off, |file|)..Min(off + len, |file|)]
  }

  /** `pwrite`, transferring everything; a gap beyond the end of the file reads as zeros. */
  function PWrite(file: seq<Byte>, off: nat, data: seq<Byte>): (r: seq<Byte>)
    ensures data != [] ==> |r| == if |file| < off + |data| then off + |data| else |file|
    ensures data != [] ==> forall p :: 0 <= p < |r| ==>
      r[p] == if off <= p < off + |data| then data[p - off] else if p < |file| then file[p] else 0
  {
    if data == [] then file
    else
      var padded := if |file| < off then file + seq(off - |file|, _ => 0 as Byte) else file;
      padded[..off] + data + padded[Min(off + |data|, |padded|)..]
  }

  // ================================================================ the workers

  /** A worker is about to read its `k`-th range, or to write what it has read of it. */
  datatype Worker = Reading(k: nat) | Writing(k: nat, buf: seq<Byte>)

  datatype State = State(dest: seq<Byte>, workers: seq<Worker>)

  predicate Finished(w: Worker, me: ToThread) { w.Reading? && w.k >= |Ranges(me)| }

  predicate Enabled(src: seq<Byte>, s: State, i: nat) {
    i < |s.workers| && !Finished(s.workers[i], Share(i, |s.workers|, |src|)) &&
    s.workers[i].k < |Ranges(Share(i, |s.workers|, |src|))|
  }

  /** One system call of worker `i`.  Reading nothing means end of file: no write follows. */
  function Next(src: seq<Byte>, s: State, i: nat): State
    requires Enabled(src, s, i)
  {
    var w := s.workers[i];
    var r := Ranges(Share(i, |s.workers|, |src|))[w.k];
    match w
    case Reading(k) =>
      var buf := PRead(src, r.off, r.len);
      s.(workers := s.workers[i := if buf == [] then Reading(k + 1) else Writing(k, buf)])
    case Writing(k, buf) =>
      State(PWrite(s.dest, r.off, buf), s.workers[i := Reading(k + 1)])
  }

  ghost predicate Valid(src: seq<Byte>, s: State, sched: seq<nat>)
    decreases |sched|, 0
  {
    sched == [] ||
    (Valid(src, s, sched[..|sched| - 1]) && Enabled(src, Final(src, s, sched[..|sched| - 1]), sched[|sched| - 1]))
  }

  ghost function Final(src: seq<Byte>, s: State, sched: seq<nat>): State
    requires Valid(src, s, sched)
    decreases |sched|, 1
  {
    if sched == [] then s else Next(src, Final(src, s, sched[..|sched| - 1]), sched[|sched| - 1])
  }

  ghost predicate Init(s: State, before: seq<Byte>) {
    |s.workers| > 0 && s.dest == before && forall i :: 0 <= i < |s.workers| ==> s.workers[i] == Reading(0)
  }

  /** Byte `p` has been copied. */
  predicate Copied(src: seq<Byte>, dest: seq<Byte>, p: nat) {
    p < |src| && p < |dest| && dest[p] == src[p]
  }

  ghost predicate Inv(src: seq<Byte>, s: State, before: seq<Byte>) {
    && |s.workers| > 0
    // the destination has not been shortened, and nothing at or beyond the source's end has changed
    && |before| <= |s.dest| && (|s.dest| <= |src| || |s.dest| == |before|)
    && (forall p :: |src| <= p < |before| ==> s.dest[p] == before[p])
    // the buffer of a writer holds its range of the source
    && (forall i :: 0 <= i < |s.workers| && s.workers[i].Writing? ==>
          BufferOk(src, Share(i, |s.workers|, |src|), s.workers[i]))
    // all bytes of finished ranges have been copied
    && (forall i: nat, k: nat, p: nat :: Owns(|s.workers|, |src|, i, k, p) && k < s.workers[i].k ==>
          Copied(src, s.dest, p))
  }

  ghost predicate BufferOk(src: seq<Byte>, me: ToThread, w: Worker)
    requires w.Writing?
  {
    w.k < |Ranges(me)| &&
    var r := Ranges(me)[w.k];
    r.len > 0 && r.off + r.len <= |src| && w.buf == src[r.off..r.off + r.len]
  }

  lemma ReadStep(src: seq<Byte>, s: State, i: nat, before: seq<Byte>)
    requires Inv(src, s, before) && Enabled(src, s, i) && s.workers[i].Reading?
    ensures Inv(src, Next(src, s, i), before)
  {
    var n, k := |s.workers|, s.workers[i].k;
    Inside(n, |src|, i, k);
    var s' := Next(src, s, i);
    forall j: nat, l: nat, p: nat | Owns(n, |src|, j, l, p) && l < s'.workers[j].k ensures Copied(src, s'.dest, p) {
    }
  }

  lemma WriteStep(src: seq<Byte>, s: State, i: nat, before: seq<Byte>)
    requires Inv(src, s, before) && Enabled(src, s, i) && s.workers[i].Writing?
    ensures Inv(src, Next(src, s, i), before)
  {
    var n, s' := |s.workers|, Next(src, s, i);
    assert BufferOk(src, Share(i, n, |src|), s.workers[i]);
    forall j: nat, l: nat, p: nat | Owns(n, |src|, j, l, p) && l < s'.workers[j].k ensures Copied(src, s'.dest, p) {
      if j != i || l != s.workers[i].k { assert Copied(src, s.dest, p); }
    }
  }

  lemma {:induction false} RunInv(src: seq<Byte>, s: State, sched: seq<nat>, before: seq<Byte>)
    requires Init(s, before) && Valid(src, s, sched)
    ensures Inv(src, Final(src, s, sched), before)
    ensures |Final(src, s, sched).workers| == |s.workers|
  {
    if sched == [] {
    } else {
      var n := |sched| - 1;
      RunInv(src, s, sched[..n], before);
      var mid := Final(src, s, sched[..n]);
      if mid.workers[sched[n]].Reading? {
        ReadStep(src, mid, sched[n], before);
      } else {
        WriteStep(src, mid, sched[n], before);
      }
    }
  }

  // ================================================================ every run comes to an end

  /** At most two system calls for each range that lies ahead. */
  function Ahead(w: Worker, me: ToThread): int {
    2 * (|Ranges(me)| - w.k) - if w.Writing? then 1 else 0
  }

  /** The same for the first `k` workers. */
  function AllAhead(s: State, size: nat, k: nat): int
    requires k <= |s.workers|
  {
    if k == 0 then 0 else AllAhead(s, size, k - 1) + Ahead(s.workers[k - 1], Share(k - 1, |s.workers|, size))
  }

  lemma {:induction false} AheadStep(src: seq<Byte>, s: State, i: nat, k: nat)
    requires Enabled(src, s, i) && k <= |s.workers|
    ensures var s' := Next(src, s, i);
      |s'.workers| == |s.workers| && AllAhead(s', |src|, k) <= AllAhead(s, |src|, k) - if i < k then 1 else 0
  {
    if k > 0 { AheadStep(src, s, i, k - 1); }
  }

  lemma {:induction false} AheadAtFirst(s: State, size: nat, k: nat)
    requires k <= |s.workers| && forall i :: 0 <= i < |s.workers| ==> s.workers[i] == Reading(0)
    ensures AllAhead(s, size, k) <= 2 * k + if k == |s.workers| then 2 else 0
  {
    if k > 0 { AheadAtFirst(s, size, k - 1); }
  }

  ghost predicate OnItsWay(src: seq<Byte>, s: State) {
    forall i :: 0 <= i < |s.workers| ==> Ahead(s.workers[i], Share(i, |s.workers|, |src|)) >= 0
  }

  lemma {:induction false} AheadPositive(src: seq<Byte>, s: State, k: nat)
    requires k <= |s.workers| && OnItsWay(src, s)
    ensures AllAhead(s, |src|, k) >= 0
  {
    if k > 0 { AheadPositive(src, s, k - 1); }
  }

  lemma {:induction false} StepsTaken(src: seq<Byte>, s: State, sched: seq<nat>, before: seq<Byte>)
    requires Init(s, before) && Valid(src, s, sched)
    ensures |Final(src, s, sched).workers| == |s.workers| && OnItsWay(src, Final(src, s, sched))
    ensures |sched| + AllAhead(Final(src, s, sched), |src|, |s.workers|) <= 2 * |s.workers| + 2
  {
    if sched == [] {
      AheadAtFirst(s, |src|, |s.workers|);
    } else {
      var n := |sched| - 1;
      StepsTaken(src, s, sched[..n], before);
      AheadStep(src, Final(src, s, sched[..n]), sched[n], |s.workers|);
    }
  }

  ghost predicate AllFinished(src: seq<Byte>, s: State) {
    forall i :: 0 <= i < |s.workers| ==> Finished(s.workers[i], Share(i, |s.workers|, |src|))
  }

  /** No worker can make a system call any more. */
  ghost predicate AtEnd(src: seq<Byte>, s: State) { forall i: nat :: !Enabled(src, s, i) }

  lemma EndIfFinished(src: seq<Byte>, s: State, before: seq<Byte>)
    requires Inv(src, s, before)
    ensures AtEnd(src, s) <==> AllFinished(src, s)
  {
    if i :| 0 <= i < |s.workers| && !Finished(s.workers[i], Share(i, |s.workers|, |src|)) {
      assert s.workers[i].Writing? ==> BufferOk(src, Share(i, |s.workers|, |src|), s.workers[i]);
      assert Enabled(src, s, i);
    }
  }

  lemma FinishedCopy(src: seq<Byte>, s: State, before: seq<Byte>)
    requires Inv(src, s, before) && AllFinished(src, s)
    ensures s.dest == src + before[Min(|src|, |before|)..]
  {
    forall p | 0 <= p < |src| ensures Copied(src, s.dest, p) {
      var i, k := OwnerFound(|s.workers|, |src|, p);
    }
    assert |src| > 0 ==> Copied(src, s.dest, |src| - 1);
    var want := src + before[Min(|src|, |before|)..];
    forall p | 0 <= p < |want| ensures p < |s.dest| && s.dest[p] == want[p] {
      if p < |src| { assert Copied(src, s.dest, p); }
    }
  }

  /** Parallel copy is correct: for every source, every old content of the destination and
      every thread count, under every interleaving of the system calls, every run is bounded, a
      run that cannot go on has all workers finished, and then the destination starts with the
      source, and whatever it held beyond the source's length is still there. */
  lemma CopyCorrect(src: seq<Byte>, s0: State, sched: seq<nat>, before: seq<Byte>)
    requires Init(s0, before) && Valid(src, s0, sched)
    ensures |sched| <= 2 * |s0.workers| + 2
    ensures var s := Final(src, s0, sched);
      && (AtEnd(src, s) <==> AllFinished(src, s))
      && (AtEnd(src, s) ==> s.dest == src + before[Min(|src|, |before|)..])
  {
    RunInv(src, s0, sched, before);
    StepsTaken(src, s0, sched, before);
    var s := Final(src, s0, sched);
    AheadPositive(src, s, |s.workers|);
    EndIfFinished(src, s, before);
    if AllFinished(src, s) { FinishedCopy(src, s, before); }
  }
}
