/** The specification that every layer of the request queue is measured against: an atomic
    FIFO with a closed flag.  A step of the specification is one visible outcome. */
module Fifo {

  /** `request_t`: a work function and its argument, both opaque here. */
  datatype Request = Request(workFn: nat, arg: nat)

  datatype Queue = Queue(items: seq<Request>, closed: bool)

  const EMPTY := Queue([], false)

  datatype Event =
    | Internal                 // nothing visible happens
    | Accept(req: Request)     // an enqueue puts its request at the back
    | Reject(req: Request)     // an enqueue finds the queue closed
    | Take(req: Request)       // a dequeue removes the request at the front
    | TakeNull                 // a dequeue reports "closed and empty"
    | Shut                     // a close
    | SawSize(n: int)          // a size query answers
    | SawClosed(b: bool)       // an isclosed query answers

  /** The specification automaton: which outcomes a queue allows, and what they do to it. */
  predicate Allows(q: Queue, e: Event) {
    match e
    case Internal | Shut => true
    case Accept(_) => !q.closed
    case Reject(_) => q.closed
    case Take(r) => q.items != [] && r == q.items[0]
    case TakeNull => q.items == [] && q.closed
    case SawSize(n) => n == |q.items|
    case SawClosed(b) => b == q.closed
  }

  function Apply(q: Queue, e: Event): Queue
    requires Allows(q, e)
  {
    match e
    case Accept(r) => q.(items := q.items + [r])
    case Take(r) => q.(items := q.items[1..])
    case Shut => q.(closed := true)
    case _ => q
  }

  /** A whole sequence of outcomes is allowed, and where it leads. */
  predicate Legal(q: Queue, es: seq<Event>)
    decreases |es|, 0
  {
    es == [] || (Legal(q, es[..|es| - 1]) && Allows(After(q, es[..|es| - 1]), es[|es| - 1]))
  }

  function After(q: Queue, es: seq<Event>): Queue
    requires Legal(q, es)
    decreases |es|, 1
  {
    if es == [] then q else Apply(After(q, es[..|es| - 1]), es[|es| - 1])
  }

  function Accepted(es: seq<Event>): seq<Request> {
    if es == [] then []
    else Accepted(es[..|es| - 1]) + (match es[|es| - 1] case Accept(r) => [r] case _ => [])
  }

  function Taken(es: seq<Event>): seq<Request> {
    if es == [] then []
    else Taken(es[..|es| - 1]) + (match es[|es| - 1] case Take(r) => [r] case _ => [])
  }

  lemma ShiftHead(a: seq<Request>, b: seq<Request>)
    requires b != []
    ensures (a + [b[0]]) + b[1..] == a + b
  {
  }

  /** First in, first out: whatever was in the queue and was accepted since comes out in that
      order, and what has not come out yet is exactly the present contents.  A closed queue
      accepts nothing and stays closed. */
  lemma {:induction false} FirstInFirstOut(q: Queue, es: seq<Event>)
    requires Legal(q, es)
    ensures q.items + Accepted(es) == Taken(es) + After(q, es).items
    ensures q.closed ==> Accepted(es) == [] && After(q, es).closed
  {
    if es == [] {
    } else {
      var before, e := es[..|es| - 1], es[|es| - 1];
      var mid := After(q, before);
      FirstInFirstOut(q, before);
      match e
      case Accept(r) =>
        assert q.items + Accepted(es) == (q.items + Accepted(before)) + [r];
        assert Taken(es) + (mid.items + [r]) == (Taken(before) + mid.items) + [r];
      case Take(r) =>
        ShiftHead(Taken(before), mid.items);
      case _ =>
        assert Accepted(es) == Accepted(before) && Taken(es) == Taken(before);
    }
  }

  // ================================================================ the same without a state

  /** An outcome fits what has happened before: requests are taken in the order of acceptance, and
      nothing is accepted, and only then anything rejected or reported drained, after a close. */
  predicate Fitting(before: seq<Event>, e: Event) {
    var accepted, taken, shut := Accepted(before), Taken(before), Shut in before;
    match e
    case Internal | Shut => true
    case Accept(_) => !shut
    case Reject(_) => shut
    case Take(r) => |taken| < |accepted| && r == accepted[|taken|]
    case TakeNull => |taken| == |accepted| && shut
    case SawSize(n) => n == |accepted| - |taken|
    case SawClosed(b) => b == shut
  }

  predicate AllFitting(es: seq<Event>) {
    es == [] || (AllFitting(es[..|es| - 1]) && Fitting(es[..|es| - 1], es[|es| - 1]))
  }

  lemma FittingIsAllowed(before: seq<Event>, q: Queue, e: Event)
    requires Accepted(before) == Taken(before) + q.items && q.closed == (Shut in before)
    ensures Allows(q, e) <==> Fitting(before, e)
  {
  }

  /** The histories of the specification from a new queue are exactly the sequences of outcomes
      each of which fits what has happened before. */
  lemma {:induction false} LegalIffFitting(es: seq<Event>)
    ensures Legal(EMPTY, es) <==> AllFitting(es)
    ensures Legal(EMPTY, es) ==> (After(EMPTY, es).closed <==> Shut in es)
  {
    if es != [] {
      var before, e := es[..|es| - 1], es[|es| - 1];
      assert es == before + [e];
      LegalIffFitting(before);
      if Legal(EMPTY, before) {
        FirstInFirstOut(EMPTY, before);
        assert EMPTY.items + Accepted(before) == Accepted(before);
        FittingIsAllowed(before, After(EMPTY, before), e);
      }
    }
  }
}
