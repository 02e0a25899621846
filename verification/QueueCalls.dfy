/** What a call returns is what happened: between its start and its return a call has exactly one
    visible outcome, in the order of the atomic FIFO, and that is the one its caller is told. */
module QueueCalls {
  import opened Basics
  import opened Fifo
  import opened QueueMachine
  import opened QueueInvariants
  import opened QueueHistory
  import opened QueueTheorems

  /** Inside one of the operations that callers share. */
  predicate InCall(pc: Pc) { pc.Enq? || pc.Deq? || pc.Clo? || pc.Ask? }

  /** The call that thread `t` makes, or has just made, and the outcomes of its statements. */
  ghost function SinceStart(s: State, sched: seq<(Tid, Choice)>, t: Tid): seq<Event>
    requires Valid(s, sched)
    decreases |sched|
  {
    if sched == [] then []
    else
      var n := |sched| - 1;
      var (u, c) := sched[n];
      var mid := Final(s, sched[..n]);
      if u != t then SinceStart(s, sched[..n], t)
      else if !InCall(mid.threads[t].pc) then []
      else SinceStart(s, sched[..n], t) + Visible(EventOf(mid.m, mid.threads[t], c))
  }

  function Visible(e: Event): seq<Event> { if e.Internal? then [] else [e] }

  /** What the statement that ends a call tells its caller: nothing more than that it is done
      (enqueue, close), the request or NULL, or the answer that was read. */
  function Returned(pc: Pc): Option<Event> {
    match pc
    case Enq(EUnlock, _, r) => Some(Accept(r))
    case Enq(EUnlockRejected, _, r) => Some(Reject(r))
    case Deq(DFree, _, g) => Some(Take(g))
    case Deq(DUnlockNull, _, _) => Some(TakeNull)
    case Clo(CUnlock) => Some(Shut)
    case Ask(Size, AUnlock, Number(n)) => Some(SawSize(n))
    case Ask(IsClosed, AUnlock, Flag(b)) => Some(SawClosed(b))
    case _ => None
  }

  /** The outcome a call has had when it stands at `pc`. */
  function SoFar(pc: Pc): seq<Event> {
    match pc
    case Enq(e, _, r) =>
      if e.EFree? || e.EUnlockRejected? then [Reject(r)]
      else if e.ERear? || e.ESize? || e.ESignal? || e.EUnlock? then [Accept(r)] else []
    case Deq(d, _, g) =>
      if d.DUnlockNull? then [TakeNull]
      else if d.DRear? || d.DSize? || d.DUnlock? || d.DRead? || d.DFree? then [Take(g)] else []
    case Clo(k) => if k.CBroadcast? || k.CUnlock? then [Shut] else []
    case Ask(_, _, answer) =>
      (match answer case NoAnswer => [] case Number(n) => [SawSize(n)] case Flag(b) => [SawClosed(b)])
    case _ => []
  }

  /** An answer is there exactly after the read, and of the kind that was asked for. */
  predicate Answered(pc: Pc) {
    pc.Ask? ==> if pc.a.AUnlock? then (if pc.query.Size? then pc.answer.Number? else pc.answer.Flag?)
                else pc.answer.NoAnswer?
  }

  /** A statement leads from place `me.pc` to `pc'`: it adds its outcome to those of the call, and
      if it ends the call, there is exactly one, the one the caller is told. */
  predicate Tells(m: Mem, me: Thread, c: Choice, pc': Pc)
    requires CanStep(m, me, c)
  {
    var all := SoFar(me.pc) + Visible(EventOf(m, me, c));
    && Answered(pc')
    && if !InCall(me.pc) then SoFar(pc') == []
       else if InCall(pc') then SoFar(pc') == all
       else Returned(me.pc).Some? && all == [Returned(me.pc).value]
  }

  lemma EnqTells(m: Mem, h: Hist, me: Thread, c: Choice)
    requires me.pc.Enq? && CanStep(m, me, c)
    ensures Tells(m, me, c, EnqStep(m, h, me, c).me.pc)
  {
  }

  lemma DeqTells(m: Mem, h: Hist, t: Tid, me: Thread, c: Choice)
    requires me.pc.Deq? && CanStep(m, me, c) && Knows(m, h, me.pc)
    ensures Tells(m, me, c, DeqStep(m, h, t, me).me.pc)
  {
  }

  lemma OtherTells(m: Mem, h: Hist, t: Tid, me: Thread, c: Choice)
    requires !me.pc.Enq? && !me.pc.Deq? && CanStep(m, me, c) && Answered(me.pc)
    ensures Tells(m, me, c, Local(m, h, t, me, c).me.pc)
  {
  }

  lemma StepTells(s: State, t: Tid, c: Choice)
    requires SafeInv(s) && Runs(s, t, c) && Answered(s.threads[t].pc)
    ensures Tells(s.m, s.threads[t], c, Next(s, t, c).threads[t].pc)
  {
    var me := s.threads[t];
    assert Knows(s.m, s.h, me.pc);
    if me.pc.Enq? {
      EnqTells(s.m, s.h, me, c);
    } else if me.pc.Deq? {
      DeqTells(s.m, s.h, t, me, c);
    } else {
      OtherTells(s.m, s.h, t, me, c);
    }
  }

  lemma OthersOutcome(s: State, t: Tid, s': State, u: Tid)
    requires Framed(s, t, s') && u < |s.threads| && u != t
    ensures SoFar(s'.threads[u].pc) == SoFar(s.threads[u].pc)
    ensures InCall(s'.threads[u].pc) == InCall(s.threads[u].pc)
    ensures Answered(s'.threads[u].pc) == Answered(s.threads[u].pc)
  {
  }

  /** In every state of every run, the outcomes of the call a thread is in are those that its
      place tells. */
  lemma {:induction false} OutcomesKnown(s0: State, sched: seq<(Tid, Choice)>, t: Tid)
    requires Init(s0) && Valid(s0, sched) && Courteous(s0, sched) && t < |s0.threads|
    ensures |Final(s0, sched).threads| == |s0.threads|
    ensures var pc := Final(s0, sched).threads[t].pc;
      Answered(pc) && (InCall(pc) ==> SinceStart(s0, sched, t) == SoFar(pc))
  {
    if sched == [] {
      assert Fresh(s0.threads[t]);
    } else {
      var n := |sched| - 1;
      var (u, c) := sched[n];
      var mid := Final(s0, sched[..n]);
      OutcomesKnown(s0, sched[..n], t);
      NextFramed(mid, u, c);
      if u == t {
        InitInv(s0);
        RunInv(s0, sched[..n]);
        StepTells(mid, t, c);
      } else {
        OthersOutcome(mid, u, Next(mid, u, c), t);
      }
    }
  }

  // ================================================================ what was called

  /** The call that thread `t` has begun last, read off the schedule alone.  A consumer begins
      none: it dequeues. */
  function Called(sched: seq<(Tid, Choice)>, t: Tid): Option<Choice> {
    if sched == [] then None
    else
      var (u, c) := sched[|sched| - 1];
      if u == t && Starts(c) then Some(c) else Called(sched[..|sched| - 1], t)
  }

  /** The outcomes that answer a call. */
  predicate Answers(call: Option<Choice>, e: Event) {
    match call
    case None => e.Take? || e.TakeNull?
    case Some(Submit(r)) => e == Accept(r) || e == Reject(r)
    case Some(Close) => e == Shut
    case Some(Query(Size)) => e.SawSize?
    case Some(Query(IsClosed)) => e.SawClosed?
    case _ => false
  }

  predicate Serves(call: Option<Choice>, pc: Pc) {
    match pc
    case Idle => true
    case Enq(_, _, r) => call == Some(Submit(r))
    case Clo(_) => call == Some(Close)
    case Ask(q, _, _) => call == Some(Query(q))
    case Des(_, _) => call == Some(Destroy)
    case Deq(_, _, _) | Work(_, _) | Done => call == None
  }

  lemma StepServes(s: State, t: Tid, c: Choice, call: Option<Choice>)
    requires CanRun(s, t, c) && Serves(call, s.threads[t].pc)
    ensures Serves(if Starts(c) then Some(c) else call, Next(s, t, c).threads[t].pc)
  {
    var me := s.threads[t];
    assert Starts(c) <==> me.pc.Idle?;
    ServesOn(s.m, s.h, t, me, c, call);
  }

  lemma ServesOn(m: Mem, h: Hist, t: Tid, me: Thread, c: Choice, call: Option<Choice>)
    requires CanStep(m, me, c) && Serves(call, me.pc) && (Starts(c) <==> me.pc.Idle?)
    ensures Serves(if Starts(c) then Some(c) else call, Local(m, h, t, me, c).me.pc)
  {
  }

  lemma {:induction false} ServesItsCall(s0: State, sched: seq<(Tid, Choice)>, t: Tid)
    requires Init(s0) && Valid(s0, sched) && t < |s0.threads|
    ensures |Final(s0, sched).threads| == |s0.threads|
    ensures Serves(Called(sched, t), Final(s0, sched).threads[t].pc)
  {
    if sched == [] {
      assert Fresh(s0.threads[t]);
    } else {
      var n := |sched| - 1;
      var (u, c) := sched[n];
      var mid := Final(s0, sched[..n]);
      ServesItsCall(s0, sched[..n], t);
      NextFramed(mid, u, c);
      if u == t { StepServes(mid, t, c, Called(sched[..n], t)); }
    }
  }

  lemma AnswerFits(call: Option<Choice>, pc: Pc)
    requires InCall(pc) && Serves(call, pc) && Returned(pc).Some?
    ensures Answers(call, Returned(pc).value)
  {
  }

  lemma AnswerStillRight(s: State, t: Tid, c: Choice)
    requires SafeInv(s) && CanRun(s, t, c)
    ensures var told := Returned(s.threads[t].pc);
      told.Some? && (told.value.SawSize? || told.value.SawClosed?) ==> Allows(Abs(Next(s, t, c)), told.value)
  {
    assert Knows(s.m, s.h, s.threads[t].pc);
  }

  /** Take any run whose last step, by thread `t`, ends a call: since the call began it has had
      exactly one visible outcome, a step of the atomic FIFO by `QueueTheorems.RunRefines`, and
      the caller is told exactly this outcome, which answers the call it has made, for the
      request it has handed over.  A size or a flag is still right at the return. */
  lemma ReturnsItsOutcome(s0: State, sched: seq<(Tid, Choice)>, t: Tid)
    requires Init(s0) && Valid(s0, sched) && Courteous(s0, sched)
    requires sched != [] && sched[|sched| - 1].0 == t < |s0.threads| == |Final(s0, sched).threads|
    requires InCall(Final(s0, sched[..|sched| - 1]).threads[t].pc) && !InCall(Final(s0, sched).threads[t].pc)
    ensures var told := Returned(Final(s0, sched[..|sched| - 1]).threads[t].pc);
      && told.Some? && SinceStart(s0, sched, t) == [told.value]
      && Answers(Called(sched[..|sched| - 1], t), told.value)
      && (told.value.SawSize? || told.value.SawClosed? ==> Allows(Abs(Final(s0, sched)), told.value))
  {
    var before := sched[..|sched| - 1];
    OutcomesKnown(s0, before, t);
    InitInv(s0);
    RunInv(s0, before);
    StepTells(Final(s0, before), t, sched[|sched| - 1].1);
    ServesItsCall(s0, before, t);
    AnswerFits(Called(before, t), Final(s0, before).threads[t].pc);
    AnswerStillRight(Final(s0, before), t, sched[|sched| - 1].1);
  }
}
