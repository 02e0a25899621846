/** The pointer code of the queue: what one thread does to the linked list while it holds the
    lock.  Each operation is an operation of the atomic FIFO. */
module QueueHeap {
  import opened Fifo

  class Node {
    var data: Request
    var next: Node?

    constructor (data: Request)
      ensures this.data == data && next == null
    {
      this.data := data;
      next := null;
    }
  }

  /** What `queue_dequeue` finds when it looks at the queue: an item, "closed and empty", or
      that it has to wait. */
  datatype Found = Got(req: Request) | Drained | MustWait

  class RequestQueue {
    var front: Node?
    var rear: Node?
    var closed: bool
    var size: int
    ghost var nodes: seq<Node>        // the linked nodes, front first
    ghost var items: seq<Request>     // the requests they carry

    ghost predicate Valid()
      reads this, nodes
    {
      && (forall i, j :: 0 <= i < j < |nodes| && j == i + 1 ==> nodes[i].next == nodes[j])
      && (nodes != [] ==> nodes[|nodes| - 1].next == null)
      && |items| == |nodes| && (forall i :: 0 <= i < |nodes| ==> nodes[i].data == items[i])
      && (forall i, j :: 0 <= i < j < |nodes| ==> nodes[i] != nodes[j])
      && front == (if nodes == [] then null else nodes[0])
      && rear == (if nodes == [] then null else nodes[|nodes| - 1])
      && size == |nodes|
    }

    ghost function Abs(): Queue
      reads this
    {
      Queue(items, closed)
    }

    constructor ()
      ensures Valid() && nodes == [] && Abs() == EMPTY
    {
      front, rear, closed, size := null, null, false, 0;
      nodes, items := [], [];
    }

    /** Puts a node behind the last one. */
    method Link(node: Node)
      requires Valid() && node !in nodes && node.next == null
      modifies this, nodes
      ensures Valid() && nodes == old(nodes) + [node] && items == old(items) + [node.data] && closed == old(closed)
    {
      if rear != null {
        rear.next := node;
      } else {
        front := node;
      }
      rear := node;
      size := size + 1;
      nodes, items := nodes + [node], items + [node.data];
    }

    /** An open queue accepts the request at the back; a closed one is left as it is. */
    method Enqueue(req: Request) returns (accepted: bool)
      requires Valid()
      modifies this, nodes
      ensures Valid() && forall n :: n in nodes ==> n in old(nodes) || fresh(n)
      ensures accepted == !old(closed)
      ensures var e := if accepted then Accept(req) else Reject(req);
        Allows(old(Abs()), e) && Abs() == Apply(old(Abs()), e)
    {
      var node := new Node(req);
      if closed {
        return false;
      }
      Link(node);
      accepted := true;
    }

    /** Takes the front item if there is one and frees its node; otherwise says whether to give
        up or to wait. */
    method Dequeue() returns (r: Found, freed: Node?)
      requires Valid()
      modifies this
      ensures Valid()
      ensures if r.Got? then freed != null && old(nodes) == [freed] + nodes && freed !in nodes
              else freed == null && nodes == old(nodes)
      ensures match r
        case Got(req) => Allows(old(Abs()), Take(req)) && Abs() == Apply(old(Abs()), Take(req))
        case Drained => Allows(old(Abs()), TakeNull) && Abs() == old(Abs())
        case MustWait => old(Abs()) == EMPTY && Abs() == old(Abs())
    {
      if front == null && !closed {
        return MustWait, null;
      }
      if front == null && closed {
        return Drained, null;
      }
      var node := front;
      front := node.next;
      if front == null {
        rear := null;
      }
      size := size - 1;
      nodes, items := nodes[1..], items[1..];
      r, freed := Got(node.data), node;
    }

    method Close()
      requires Valid()
      modifies this
      ensures Valid() && Abs() == Apply(old(Abs()), Fifo.Shut)
    {
      closed := true;
    }

    method IsClosed() returns (b: bool)
      requires Valid()
      ensures Allows(Abs(), SawClosed(b))
    {
      b := closed;
    }

    method Size() returns (n: int)
      requires Valid()
      ensures Allows(Abs(), SawSize(n))
    {
      n := size;
    }

    /** Frees every linked node once, front first, together with the request it carries. */
    method Destroy() returns (freedNodes: seq<Node>, freedData: seq<Request>)
      requires Valid()
      modifies this
      ensures freedNodes == old(nodes) && freedData == old(Abs()).items && front == null
    {
      freedNodes, freedData := [], [];
      ghost var k := 0;
      while front != null
        invariant 0 <= k <= |nodes| == |old(nodes)| && nodes == old(nodes) && items == old(items)
        invariant front == if k < |nodes| then nodes[k] else null
        invariant freedNodes == nodes[..k] && freedData == items[..k]
        invariant forall i :: 0 <= i < |nodes| ==>
          nodes[i].next == old(nodes[i].next) && nodes[i].data == old(nodes[i].data)
        decreases |nodes| - k
      {
        var tmp := front;
        front := tmp.next;
        assert k + 1 < |nodes| ==> tmp.next == nodes[k + 1];
        freedNodes, freedData := freedNodes + [tmp], freedData + [tmp.data];
        k := k + 1;
      }
    }
  }

  /** The loop of `worker_func` on a queue that has been closed: it runs every queued request
      once, in queue order, and stops when the queue is closed and empty. */
  method DrainClosed(q: RequestQueue) returns (ran: seq<Request>, processed: nat)
    requires q.Valid() && q.closed
    modifies q
    ensures q.Valid() && q.closed && q.items == []
    ensures ran == old(q.items) && processed == |ran|
  {
    ran, processed := [], 0;
    assert ran + q.items == q.items;
    while true
      invariant q.Valid() && q.closed
      invariant ran + q.items == old(q.items) && processed == |ran|
      decreases |q.items|
    {
      ghost var before := q.items;
      var r, _ := q.Dequeue();
      if !r.Got? {
        assert ran + [] == ran;
        break;
      }
      ShiftHead(ran, before);
      ran := ran + [r.req];
      processed := processed + 1;
    }
  }
}
