/** The banking application in locking mode: each thread takes the lock, runs a script of
    deposits and withdrawals on one global balance, and releases the lock. */
module Bank {
  import opened Basics
  import opened LockedSection

  const MIN_CREDIT := 500
  const HIGH_BALANCE := 1_000_000

  datatype Op = Deposit(amount: int) | Withdraw(amount: int)

  // ================================================================ what an operation means

  predicate Accepts(balance: int, op: Op) {
    match op
    case Deposit(a) => a > 0
    case Withdraw(a) => balance - a >= MIN_CREDIT
  }

  function Apply(balance: int, op: Op): int {
    if !Accepts(balance, op) then balance
    else if op.Deposit? then balance + op.amount else balance - op.amount
  }

  function ApplyAll(balance: int, script: seq<Op>): int
    decreases script
  {
    if script == [] then balance else ApplyAll(Apply(balance, script[0]), script[1..])
  }

  /** The sum of the deposits among `ops` that are accepted, run one after the other. */
  function Deposited(balance: int, ops: seq<Op>): int
    decreases ops
  {
    if ops == [] then 0
    else
      (if ops[0].Deposit? && Accepts(balance, ops[0]) then ops[0].amount else 0)
      + Deposited(Apply(balance, ops[0]), ops[1..])
  }

  /** The sum of the withdrawals among `ops` that are accepted. */
  function Withdrawn(balance: int, ops: seq<Op>): int
    decreases ops
  {
    if ops == [] then 0
    else
      (if ops[0].Withdraw? && Accepts(balance, ops[0]) then ops[0].amount else 0)
      + Withdrawn(Apply(balance, ops[0]), ops[1..])
  }

  /** Money is conserved: the balance moves by what was accepted, and by nothing else. */
  lemma {:induction false} Conserved(balance: int, ops: seq<Op>)
    ensures ApplyAll(balance, ops) == balance + Deposited(balance, ops) - Withdrawn(balance, ops)
    ensures balance >= MIN_CREDIT ==> ApplyAll(balance, ops) >= MIN_CREDIT
    decreases ops
  {
    if ops != [] { Conserved(Apply(balance, ops[0]), ops[1..]); }
  }

  lemma {:induction false} InTwoParts(balance: int, x: seq<Op>, y: seq<Op>)
    ensures ApplyAll(balance, x + y) == ApplyAll(ApplyAll(balance, x), y)
    ensures Deposited(balance, x + y) == Deposited(balance, x) + Deposited(ApplyAll(balance, x), y)
    ensures Withdrawn(balance, x + y) == Withdrawn(balance, x) + Withdrawn(ApplyAll(balance, x), y)
    decreases x
  {
    if x == [] {
      assert x + y == y;
    } else {
      assert (x + y)[1..] == x[1..] + y;
      InTwoParts(Apply(balance, x[0]), x[1..], y);
    }
  }

  /** The functions of the program, run by a thread that is alone. */
  class Account {
    var balance: int

    constructor (opening: int)
      ensures balance == opening
    {
      balance := opening;
    }

    method Deposit(amount: int) returns (highBalance: bool)
      modifies this
      ensures balance == Apply(old(balance), Op.Deposit(amount))
      ensures balance == old(balance) + if amount > 0 then amount else 0
      ensures highBalance <==> amount > 0 && balance >= 1_000_000
    {
      if amount <= 0 {
        return false;
      }
      balance := balance + amount;
      highBalance := balance >= HIGH_BALANCE;
    }

    method Withdraw(amount: int) returns (ok: bool)
      modifies this
      ensures balance == Apply(old(balance), Op.Withdraw(amount))
      ensures ok <==> old(balance) - amount >= 500
      ensures balance == old(balance) - if ok then amount else 0
    {
      if balance - amount < MIN_CREDIT {
        return false;
      }
      balance := balance - amount;
      ok := true;
    }
  }

  // ================================================================ the loads and stores

  /** A thread's registers, and the sums of the deposits and withdrawals it has stored (history). */
  datatype Regs = Regs(r: int, granted: bool, credited: int, debited: int)

  const START := Regs(0, false, 0, 0)

  /** `deposit`: test the amount; load, add, store; load again for the message. */
  function DepositCode(a: int): seq<Instr<int, Regs>> {
    [ (b: int, l: Regs) => (b, l.(granted := a > 0)),
      (b: int, l: Regs) => (b, if l.granted then l.(r := b) else l),
      (b: int, l: Regs) => if l.granted then (l.r + a, l.(credited := l.credited + a)) else (b, l),
      (b: int, l: Regs) => (b, if l.granted then l.(r := b) else l) ]
  }

  /** `withdraw`: load and compare with the floor; load again, subtract, store; load for the
      message. */
  function WithdrawCode(a: int): seq<Instr<int, Regs>> {
    [ (b: int, l: Regs) => (b, l.(r := b)),
      (b: int, l: Regs) => (b, l.(granted := l.r - a >= MIN_CREDIT)),
      (b: int, l: Regs) => (b, if l.granted then l.(r := b) else l),
      (b: int, l: Regs) => if l.granted then (l.r - a, l.(debited := l.debited + a)) else (b, l),
      (b: int, l: Regs) => (b, if l.granted then l.(r := b) else l) ]
  }

  function Code(op: Op): seq<Instr<int, Regs>> {
    if op.Deposit? then DepositCode(op.amount) else WithdrawCode(op.amount)
  }

  function Compile(script: seq<Op>): seq<Instr<int, Regs>> {
    if script == [] then [] else Code(script[0]) + Compile(script[1..])
  }

  /** How many operations of a script have stored the new balance (or refused) after `k`
      instructions.  The store is the last instruction but one of each. */
  function Stored(script: seq<Op>, k: nat): (j: nat)
    ensures j <= |script|
  {
    if script == [] then 0
    else
      var n := |Code(script[0])|;
      if k < n - 1 then 0 else 1 + Stored(script[1..], if k < n then 0 else k - n)
  }

  /** From `(b, l)` to `(b', l')` exactly `ops` took effect: on the balance and, separately, on
      the thread's two sums. */
  ghost predicate Booked(ops: seq<Op>, b: int, l: Regs, b': int, l': Regs) {
    && b' == ApplyAll(b, ops)
    && l'.credited == l.credited + Deposited(b, ops)
    && l'.debited == l.debited + Withdrawn(b, ops)
  }

  lemma BookedInTwoParts(x: seq<Op>, y: seq<Op>, b: int, l: Regs, b': int, l': Regs, b'': int, l'': Regs)
    requires Booked(x, b, l, b', l') && Booked(y, b', l', b'', l'')
    ensures Booked(x + y, b, l, b'', l'')
  {
    InTwoParts(b, x, y);
  }

  lemma BookedOne(op: Op, b: int, l: Regs, b': int, l': Regs)
    requires b' == Apply(b, op)
    requires l'.credited == l.credited + if op.Deposit? && Accepts(b, op) then op.amount else 0
    requires l'.debited == l.debited + if op.Withdraw? && Accepts(b, op) then op.amount else 0
    ensures Booked([op], b, l, b', l')
  {
    assert [op][1..] == [];
  }

  lemma DepositRun(a: int, k: nat, b: int, l: Regs)
    requires k <= 4
    ensures var (b', l') := Run(DepositCode(a), k, b, l);
      && l'.debited == l.debited
      && if k < 3 then b' == b && l'.credited == l.credited
         else b' == Apply(b, Deposit(a)) && l'.credited == l.credited + if a > 0 then a else 0
  {
  }

  lemma WithdrawRun(a: int, k: nat, b: int, l: Regs)
    requires k <= 5
    ensures var (b', l') := Run(WithdrawCode(a), k, b, l);
      && l'.credited == l.credited
      && if k < 4 then b' == b && l'.debited == l.debited
         else b' == Apply(b, Withdraw(a)) && l'.debited == l.debited + if b - a >= 500 then a else 0
  {
    var granted := l.(r := b, granted := b - a >= MIN_CREDIT);
    if k >= 2 { assert Run(WithdrawCode(a), 2, b, l) == (b, granted); }
    if k >= 3 { assert Run(WithdrawCode(a), 3, b, l) == (b, granted); }
  }

  lemma OpRun(op: Op, k: nat, b: int, l: Regs)
    requires k <= |Code(op)|
    ensures var (b', l') := Run(Code(op), k, b, l);
      Booked(if k < |Code(op)| - 1 then [] else [op], b, l, b', l')
  {
    var (b', l') := Run(Code(op), k, b, l);
    if op.Deposit? { DepositRun(op.amount, k, b, l); } else { WithdrawRun(op.amount, k, b, l); }
    if k >= |Code(op)| - 1 { BookedOne(op, b, l, b', l'); }
  }

  lemma StoredNow(script: seq<Op>, k: nat)
    requires script != []
    ensures var n := |Code(script[0])|;
      script[..Stored(script, k)] == if k < n - 1 then []
        else [script[0]] + script[1..][..Stored(script[1..], if k < n then 0 else k - n)]
  {
  }

  lemma StoredNone(script: seq<Op>)
    ensures script[..Stored(script, 0)] == []
  {
  }

  lemma {:induction false} StoredAll(script: seq<Op>)
    ensures script[..Stored(script, |Compile(script)|)] == script
  {
    if script != [] {
      StoredAll(script[1..]);
      StoredNow(script, |Compile(script)|);
    }
  }

  /** The instructions of a script, run without interruption and stopped anywhere: the balance
      and the two sums are those of the operations whose store has been executed. */
  lemma {:induction false} ScriptRun(script: seq<Op>, k: nat, b: int, l: Regs)
    requires k <= |Compile(script)|
    ensures var (b', l') := Run(Compile(script), k, b, l);
      Booked(script[..Stored(script, k)], b, l, b', l')
  {
    if script == [] {
    } else {
      var p, q := Code(script[0]), Compile(script[1..]);
      RunConcat(p, q, k, b, l);
      StoredNow(script, k);
      if k <= |p| {
        OpRun(script[0], k, b, l);
        StoredNone(script[1..]);
        assert [script[0]] + [] == [script[0]];
      } else {
        OpRun(script[0], |p|, b, l);
        var (b', l') := RunAll(p, b, l);
        ScriptRun(script[1..], k - |p|, b', l');
        var (b'', l'') := Run(q, k - |p|, b', l');
        BookedInTwoParts([script[0]], script[1..][..Stored(script[1..], k - |p|)], b, l, b', l', b'', l'');
      }
    }
  }

  // ================================================================ all threads

  /** A bank with one thread per script. */
  ghost function TheBank(scripts: seq<seq<Op>>): Sys<int, Regs> {
    Sys(seq(|scripts|, i requires 0 <= i < |scripts| => Compile(scripts[i])),
        seq(|scripts|, i => START))
  }

  /** The operations that thread `t` has performed. */
  ghost function PerformedBy(scripts: seq<seq<Op>>, at: seq<At<Regs>>, t: Tid): seq<Op>
    requires t < |at| == |scripts|
  {
    match at[t]
    case Waiting => []
    case Inside(pc, _) => scripts[t][..Stored(scripts[t], pc)]
    case Left(_) => scripts[t]
  }

  ghost function Performed(scripts: seq<seq<Op>>, at: seq<At<Regs>>, order: seq<Tid>): seq<Op>
    requires |at| == |scripts| && forall i :: 0 <= i < |order| ==> order[i] < |at|
  {
    if order == [] then []
    else Performed(scripts, at, order[..|order| - 1]) + PerformedBy(scripts, at, order[|order| - 1])
  }

  ghost function RegsOf(at: At<Regs>): Regs { if at.Waiting? then START else at.local }

  /** What the threads in `order` have recorded as deposited and as withdrawn. */
  ghost function Credits(at: seq<At<Regs>>, order: seq<Tid>): int
    requires forall i :: 0 <= i < |order| ==> order[i] < |at|
  {
    if order == [] then 0
    else Credits(at, order[..|order| - 1]) + RegsOf(at[order[|order| - 1]]).credited
  }

  ghost function Debits(at: seq<At<Regs>>, order: seq<Tid>): int
    requires forall i :: 0 <= i < |order| ==> order[i] < |at|
  {
    if order == [] then 0
    else Debits(at, order[..|order| - 1]) + RegsOf(at[order[|order| - 1]]).debited
  }

  /** All operations of the scripts in `order`. */
  ghost function OpsOf(scripts: seq<seq<Op>>, order: seq<Tid>): seq<Op>
    requires forall i :: 0 <= i < |order| ==> order[i] < |scripts|
  {
    if order == [] then [] else OpsOf(scripts, order[..|order| - 1]) + scripts[order[|order| - 1]]
  }

  lemma {:induction false} AllPerformed(scripts: seq<seq<Op>>, at: seq<At<Regs>>, order: seq<Tid>)
    requires |at| == |scripts| && forall i :: 0 <= i < |order| ==> order[i] < |at| && at[order[i]].Left?
    ensures Performed(scripts, at, order) == OpsOf(scripts, order)
  {
    if order != [] { AllPerformed(scripts, at, order[..|order| - 1]); }
  }

  /** Balance `b` and the sums of the threads in `order` are those of `ops`, run serially. */
  ghost predicate Accounts(ops: seq<Op>, opening: int, b: int, at: seq<At<Regs>>, order: seq<Tid>)
    requires forall i :: 0 <= i < |order| ==> order[i] < |at|
  {
    && b == ApplyAll(opening, ops)
    && Credits(at, order) == Deposited(opening, ops)
    && Debits(at, order) == Withdrawn(opening, ops)
  }

  /** One more thread, with what it has performed itself. */
  lemma OneMore(scripts: seq<seq<Op>>, at: seq<At<Regs>>, order: seq<Tid>, opening: int, b: int, b': int)
    requires |at| == |scripts| && order != [] && forall i :: 0 <= i < |order| ==> order[i] < |at|
    requires var before := order[..|order| - 1]; Accounts(Performed(scripts, at, before), opening, b, at, before)
    requires var t := order[|order| - 1]; Booked(PerformedBy(scripts, at, t), b, START, b', RegsOf(at[t]))
    ensures Accounts(Performed(scripts, at, order), opening, b', at, order)
  {
    InTwoParts(opening, Performed(scripts, at, order[..|order| - 1]), PerformedBy(scripts, at, order[|order| - 1]));
  }

  /** The threads up to position `k`, if all of them have left. */
  lemma {:induction false} LeftAccounts(
      scripts: seq<seq<Op>>, at: seq<At<Regs>>, order: seq<Tid>, k: nat, opening: int)
    requires |at| == |scripts| && Distinct(order, |at|) && k <= |order|
    requires forall i :: 0 <= i < k ==> at[order[i]] == Left(Result(TheBank(scripts), order, i, opening))
    ensures Accounts(Performed(scripts, at, order[..k]), opening, Serial(TheBank(scripts), order[..k], opening),
                     at, order[..k])
  {
    if k == 0 {
    } else {
      LeftAccounts(scripts, at, order, k - 1, opening);
      assert order[..k][..k - 1] == order[..k - 1];
      var script, b := scripts[order[k - 1]], Serial(TheBank(scripts), order[..k - 1], opening);
      ScriptRun(script, |Compile(script)|, b, START);
      StoredAll(script);
      OneMore(scripts, at, order[..k], opening, b, Serial(TheBank(scripts), order[..k], opening));
    }
  }

  lemma InvAccounts(scripts: seq<seq<Op>>, s: State<int, Regs>, opening: int)
    requires Inv(TheBank(scripts), s, opening)
    ensures Accounts(Performed(scripts, s.at, s.order), opening, s.shared, s.at, s.order)
  {
    var k := if s.owner.None? then |s.order| else |s.order| - 1;
    forall i | 0 <= i < k ensures s.at[s.order[i]] == Left(Result(TheBank(scripts), s.order, i, opening)) {
      assert s.order[i] in s.order;
    }
    LeftAccounts(scripts, s.at, s.order, k, opening);
    assert s.order[..|s.order|] == s.order;
    if s.owner.Some? {
      var script, b := scripts[s.owner.value], Serial(TheBank(scripts), s.order[..k], opening);
      ScriptRun(script, s.at[s.owner.value].pc, b, START);
      OneMore(scripts, s.at, s.order, opening, b, s.shared);
    }
  }

  /** Locked banking is serializable.  For any number of threads with any scripts, in every state
      of every interleaving of individual loads and stores, lock held or free: the balance is
      that of running, one after the other, the operations performed so far in the order in
      which their threads got the lock; it equals the opening balance plus accepted deposits
      minus accepted withdrawals; and the threads' own records of deposits and of withdrawals
      add up to exactly these two sums.  Every run comes to an end, and then every thread has
      performed its whole script. */
  lemma BankSerializable(scripts: seq<seq<Op>>, s0: State<int, Regs>, sched: seq<Tid>, opening: int)
    requires Init(TheBank(scripts), s0, opening) && Valid(TheBank(scripts), s0, sched)
    ensures var s := Final(TheBank(scripts), s0, sched);
      && |s.at| == |scripts| && Distinct(s.order, |s.at|)
      && (forall t :: 0 <= t < |s.at| ==> (s.at[t].Waiting? <==> t !in s.order))
      && (forall t :: 0 <= t < |s.at| ==> (s.at[t].Inside? <==> s.owner == Some(t)))
      && (var ops := Performed(scripts, s.at, s.order);
          && s.shared == ApplyAll(opening, ops)
          && s.shared == opening + Deposited(opening, ops) - Withdrawn(opening, ops)
          && Credits(s.at, s.order) == Deposited(opening, ops)
          && Debits(s.at, s.order) == Withdrawn(opening, ops))
      && (AtEnd(TheBank(scripts), s) ==>
            && s.owner.None? && |s.order| == |scripts|
            && Performed(scripts, s.at, s.order) == OpsOf(scripts, s.order))
    ensures |sched| <= Steps(TheBank(scripts).progs)
  {
    Serializable(TheBank(scripts), s0, sched, opening);
    RunInv(TheBank(scripts), s0, sched, opening);
    var s := Final(TheBank(scripts), s0, sched);
    if AtEnd(TheBank(scripts), s) { AllPerformed(scripts, s.at, s.order); }
    InvAccounts(scripts, s, opening);
    Conserved(opening, Performed(scripts, s.at, s.order));
  }

  /** The balance never drops below the minimum credit, not even inside a critical section. */
  lemma NeverBelowFloor(scripts: seq<seq<Op>>, s0: State<int, Regs>, sched: seq<Tid>, opening: int)
    requires Init(TheBank(scripts), s0, opening) && Valid(TheBank(scripts), s0, sched) && opening >= MIN_CREDIT
    ensures Final(TheBank(scripts), s0, sched).shared >= MIN_CREDIT
  {
    BankSerializable(scripts, s0, sched, opening);
    var s := Final(TheBank(scripts), s0, sched);
    Conserved(opening, Performed(scripts, s.at, s.order));
  }

  /** The program: thread 1 deposits 3000 and withdraws 250, thread 2 withdraws 9000 and deposits
      1000, from 12000.  In whatever order they get the lock, it ends with 6750. */
  lemma TheProgramEndsWith(scripts: seq<seq<Op>>, s0: State<int, Regs>, sched: seq<Tid>)
    requires scripts == [[Deposit(3000), Withdraw(250)], [Withdraw(9000), Deposit(1000)]]
    requires Init(TheBank(scripts), s0, 12000) && Valid(TheBank(scripts), s0, sched)
    requires AtEnd(TheBank(scripts), Final(TheBank(scripts), s0, sched))
    ensures Final(TheBank(scripts), s0, sched).shared == 6750
  {
    BankSerializable(scripts, s0, sched, 12000);
    var order := Final(TheBank(scripts), s0, sched).order;
    assert order == [0, 1] || order == [1, 0];
    BothOrders(scripts, order);
  }

  lemma BothOrders(scripts: seq<seq<Op>>, order: seq<Tid>)
    requires scripts == [[Deposit(3000), Withdraw(250)], [Withdraw(9000), Deposit(1000)]]
    requires order == [0, 1] || order == [1, 0]
    ensures ApplyAll(12000, OpsOf(scripts, order)) == 6750
  {
    var first := scripts[order[0]];
    assert OpsOf(scripts, order[..1]) == first by { assert order[..1][..0] == []; }
    InTwoParts(12000, first, scripts[order[1]]);
    ScriptOfTwo(12000, scripts[order[0]]);
    ScriptOfTwo(ApplyAll(12000, first), scripts[order[1]]);
  }

  lemma ScriptOfTwo(b: int, script: seq<Op>)
    requires |script| == 2
    ensures ApplyAll(b, script) == Apply(Apply(b, script[0]), script[1])
  {
    var b', rest := Apply(b, script[0]), script[1..];
    assert ApplyAll(b', rest) == ApplyAll(Apply(b', rest[0]), rest[1..]);
    assert rest[1..] == [];
  }
}
