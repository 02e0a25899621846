/** The factorial program in locking mode: each thread takes the lock, multiplies up the
    factorial of its own argument in one shared 64-bit global, prints it, and releases the
    lock. */
module Factorials {
  import opened Basics
  import opened LockedSection

  const WORD := 0x1_0000_0000_0000_0000

  function Factorial(n: nat): (f: nat)
    ensures f >= 1
  {
    if n == 0 then 1 else n * Factorial(n - 1)
  }

  function Clip(num: int): nat { if num < 0 then 0 else num }

  lemma MulMod(a: nat, b: nat)
    ensures ((a % WORD) * b) % WORD == (a * b) % WORD
  {
    var q := a / WORD;
    assert a == q * WORD + a % WORD;
    assert a * b == (q * b) * WORD + (a % WORD) * b;
    ModShift(q * b, (a % WORD) * b);
  }

  lemma {:induction false} ModShift(q: nat, x: nat)
    ensures (q * WORD + x) % WORD == x % WORD
  {
    if q > 0 {
      ModShift(q - 1, x);
      assert q * WORD + x == ((q - 1) * WORD + x) + WORD;
    }
  }

  /** One multiplication modulo 2^64. */
  lemma MultiplyOnce(i: nat, f: nat)
    requires i > 0 && f == Factorial(i - 1) % WORD
    ensures f * i % WORD == Factorial(i) % WORD
  {
    MulMod(Factorial(i - 1), i);
  }

  class Global {
    var factorial: nat

    /** `factorize`, run by a thread that is alone: arithmetic is modulo 2^64. */
    method Factorize(num: int)
      modifies this
      ensures factorial == if num <= 0 then 1 else Factorial(num) % 0x1_0000_0000_0000_0000
    {
      factorial := 1;
      if num <= 0 {
        return;
      }
      var i := 1;
      while i <= num
        invariant 1 <= i <= num + 1
        invariant factorial == Factorial(i - 1) % WORD
      {
        MultiplyOnce(i, factorial);
        factorial := factorial * i % WORD;
        i := i + 1;
      }
    }
  }

  // ================================================================ loads and stores

  datatype Regs = Regs(r: nat, printed: Option<int>)

  /** `%lld` shows the upper half of the words as negative numbers. */
  function Signed(f: nat): int { if f < WORD / 2 then f else f - WORD }

  /** `gFactorial *= i` is a load and a store. */
  function Multiply(i: nat): seq<Instr<nat, Regs>> {
    [ (f: nat, l: Regs) => (f, l.(r := f)),
      (f: nat, l: Regs) => (l.r * i % WORD, l) ]
  }

  function Multiplies(num: nat): seq<Instr<nat, Regs>> {
    if num == 0 then [(f: nat, l: Regs) => (1, l)] else Multiplies(num - 1) + Multiply(num)
  }

  /** The critical section of a worker: `factorize(num)`, then load the global to print it. */
  function Section(num: int): seq<Instr<nat, Regs>> {
    Multiplies(Clip(num)) + [(f: nat, l: Regs) => (f, l.(printed := Some(Signed(f))))]
  }

  lemma MultiplyRun(i: nat, f: nat, l: Regs)
    ensures RunAll(Multiply(i), f, l).0 == f * i % WORD
  {
    assert Run(Multiply(i), 0, f, l) == (f, l);
    assert Run(Multiply(i), 1, f, l) == (f, l.(r := f));
  }

  lemma {:induction false} MultipliesRun(num: nat, f: nat, l: Regs)
    ensures RunAll(Multiplies(num), f, l).0 == Factorial(num) % WORD
  {
    if num == 0 {
      assert Run(Multiplies(0), 0, f, l) == (f, l);
    } else {
      var p, q := Multiplies(num - 1), Multiply(num);
      RunConcat(p, q, |p| + |q|, f, l);
      MultipliesRun(num - 1, f, l);
      MultiplyRun(num, RunAll(p, f, l).0, RunAll(p, f, l).1);
      MultiplyOnce(num, RunAll(p, f, l).0);
    }
  }

  /** Whatever the global held before, the section prints the factorial of its own argument, as
      far as 64 bits show it. */
  lemma SectionPrints(num: int, f: nat, l: Regs)
    ensures RunAll(Section(num), f, l).1.printed == Some(Signed(Factorial(Clip(num)) % WORD))
  {
    var p, q := Multiplies(Clip(num)), [(f: nat, l: Regs) => (f, l.(printed := Some(Signed(f))))];
    RunConcat(p, q, |p| + 1, f, l);
    MultipliesRun(Clip(num), f, l);
    var (f', l') := RunAll(p, f, l);
    assert Run(q, 0, f', l') == (f', l');
  }

  ghost function TheProgram(args: seq<int>): Sys<nat, Regs> {
    Sys(seq(|args|, i requires 0 <= i < |args| => Section(args[i])), seq(|args|, i => Regs(0, None)))
  }

  /** For any number of threads, any arguments and any interleaving of the multiply steps, each
      thread that has left its critical section has printed the factorial of its own argument,
      modulo 2^64 and as a signed number: exactly the factorial for arguments up to 20, and 1 for
      arguments up to 0.  Every run comes to an end, and then every thread has printed. */
  lemma EachPrintsItsOwn(args: seq<int>, s0: State<nat, Regs>, sched: seq<Tid>, initial: nat, t: Tid)
    requires Init(TheProgram(args), s0, initial) && Valid(TheProgram(args), s0, sched)
    requires t < |args|
    ensures |sched| <= Steps(TheProgram(args).progs)
    ensures var s := Final(TheProgram(args), s0, sched);
      && |s.at| == |args|
      && (AtEnd(TheProgram(args), s) ==> s.owner.None? && s.at[t].Left?)
      && (s.at[t].Left? ==> PrintedFor(args[t], s.at[t].local.printed))
  {
    var sys := TheProgram(args);
    Serializable(sys, s0, sched, initial);
    var s := Final(sys, s0, sched);
    RunInv(sys, s0, sched, initial);
    if s.at[t].Left? { PrintsItsOwn(args, s, initial, t); }
  }

  /** What is printed for an argument: the factorial as a signed word. */
  ghost predicate PrintedFor(arg: int, printed: Option<int>) {
    && printed.Some? && -0x8000_0000_0000_0000 <= printed.value < 0x8000_0000_0000_0000
    && (arg <= 0 ==> printed.value == 1)
    && (arg > 0 ==> (Factorial(arg) - printed.value) % 0x1_0000_0000_0000_0000 == 0)
    && (arg > 0 ==> (printed.value == Factorial(arg) <==> arg <= 20))
  }

  lemma SignedShows(f: nat)
    ensures var v := Signed(f % WORD);
      -0x8000_0000_0000_0000 <= v < 0x8000_0000_0000_0000 && (f - v) % 0x1_0000_0000_0000_0000 == 0
  {
  }

  lemma ShownAs(arg: int)
    ensures PrintedFor(arg, Some(Signed(Factorial(Clip(arg)) % WORD)))
  {
    FitsUpToTwenty(Clip(arg));
    SignedShows(Factorial(Clip(arg)));
  }

  lemma PrintsItsOwn(args: seq<int>, s: State<nat, Regs>, initial: nat, t: Tid)
    requires Inv(TheProgram(args), s, initial) && t < |args| && s.at[t].Left?
    ensures PrintedFor(args[t], s.at[t].local.printed)
  {
    var sys := TheProgram(args);
    assert t in s.order;
    var i :| 0 <= i < |s.order| && s.order[i] == t;
    SectionPrints(args[t], Serial(sys, s.order[..i], initial), Regs(0, None));
    ShownAs(args[t]);
  }

  lemma SignedExact(f: nat)
    ensures Signed(f % WORD) == f <==> f < WORD / 2
  {
  }

  /** A signed 64-bit number shows a factorial unchanged exactly up to 20. */
  lemma FitsUpToTwenty(n: nat)
    ensures Signed(Factorial(n) % WORD) == Factorial(n) <==> n <= 20
  {
    Twenty();
    if n <= 20 { Grows(n, 20); } else { Grows(21, n); }
    SignedExact(Factorial(n));
  }

  lemma {:induction false} Grows(m: nat, n: nat)
    requires m <= n
    ensures Factorial(m) <= Factorial(n)
  {
    if m < n {
      Grows(m, n - 1);
      assert Factorial(n - 1) <= n * Factorial(n - 1);
    }
  }

  /** 20! fits into 63 bits, 21! does not fit into 64. */
  lemma Twenty()
    ensures Factorial(20) < WORD / 2 && WORD <= Factorial(21)
  {
    assert Factorial(5) == 120;
    assert Factorial(10) == 3628800;
    assert Factorial(15) == 1307674368000;
    assert Factorial(20) == 2432902008176640000;
    assert Factorial(21) == 51090942171709440000;
  }
}
