/** The completion list of AppleUSBFTDI.c: the USB stack appends finished requests under a lock
    (usbComplete), and the work loop takes the whole list at once and works it off
    (handleCompletionGated). One method is one stretch under the lock, or one that touches only
    what its caller owns, so any sequence of calls is an interleaving. */
module FtdiCompletions {

  datatype Kind = ReadDone | WriteDone | ModemDone

  datatype Report = Report(node: Node, kind: Kind, status: int, remaining: int)

  class Node {
    var next: Node?
    var kind: Kind
    var status: int
    var remaining: int
    // Whether the USB stack still owes a completion for it, and whether its memory has been freed.
    var outstanding: bool
    var freed: bool
    // How many completions had arrived before its latest.
    ghost var order: nat

    ghost function Said(): Report
      reads this
    {
      Report(this, kind, status, remaining)
    }

    constructor ()
      ensures !outstanding && !freed
    {
      next, kind, status, remaining, outstanding, freed, order := null, ReadDone, 0, 0, false, false, 0;
    }
  }

  class CompletionList {
    // The shared list, under the lock.
    var first: Node?
    var last: Node?
    // The rest of the batch the work loop is busy with; nobody else sees it.
    var current: Node?
    // Whether completions are taken at all: the thread call, the lock and the gate exist and the
    // driver has not been torn down.
    var accepting: bool

    // All queued nodes, those of the batch first, and what was reported of them.
    ghost var queue: seq<Node>
    ghost var batch: nat
    ghost var pending: seq<Report>
    // Everything that was ever appended, everything that was taken out of the list, and everything
    // that has been handled.
    ghost var arrived: seq<Report>
    ghost var taken: seq<Report>
    ghost var handled: seq<Report>

    // Two chains of links, the batch and the shared list, each ending with null; last is the end of
    // the shared one.
    ghost predicate Linked()
      reads this, queue
    {
      && batch <= |queue|
      && current == (if batch == 0 then null else queue[0])
      && first == (if batch == |queue| then null else queue[batch])
      && last == (if batch == |queue| then null else queue[|queue| - 1])
      && (queue != [] ==> queue[|queue| - 1].next == null)
      && (forall i, j :: 0 <= i && i + 1 == j < |queue| ==> queue[i].next == if j == batch then null else queue[j])
    }

    // Every queued node is live, not with the USB stack, and says what was reported of it.
    ghost predicate Recorded()
      reads this, queue
    {
      && |pending| == |queue|
      && (forall i :: 0 <= i < |queue| ==>
            && !queue[i].freed && !queue[i].outstanding
            && queue[i].order == |taken| + i && queue[i].Said() == pending[i])
    }

    ghost predicate Valid()
      reads this, queue
    {
      Linked() && Recorded() && arrived == taken + pending
    }

    constructor (accepting: bool)
      ensures Valid() && arrived == [] && handled == taken == [] && this.accepting == accepting
    {
      first, last, current, this.accepting := null, null, null, accepting;
      queue, batch, pending, arrived, taken, handled := [], 0, [], [], [], [];
    }

    // Before the lock is taken: the node is filled in, while it is in neither list.
    method Fill(n: Node, kind: Kind, status: int, remaining: int)
      requires Valid() && n.outstanding && !n.freed
      modifies n
      ensures Valid() && n.next == null && !n.outstanding && !n.freed && n !in queue
      ensures n.Said() == Report(n, kind, status, remaining)
    {
      n.outstanding := false;
      n.kind, n.status, n.remaining, n.next := kind, status, remaining, null;
    }

    method LinkBehind(n: Node)
      requires Linked() && Recorded() && n.next == null && n !in queue
      modifies this`first, this`last, this`queue, last
      ensures Linked() && queue == old(queue) + [n] && n.next == null
      ensures forall k :: 0 <= k < |old(queue)| ==> queue[k].Said() == old(queue[k].Said())
      ensures forall k :: 0 <= k < |old(queue)| ==> queue[k].order == old(queue[k].order)
      ensures forall k :: 0 <= k < |old(queue)| ==> !queue[k].freed && !queue[k].outstanding
    {
      if first != null {
        last.next := n;
      } else {
        first := n;
      }
      last := n;
      queue := queue + [n];
    }

    // Under the lock: it is linked in behind the last one.
    method Append(n: Node)
      requires Valid() && n.next == null && !n.outstanding && !n.freed && n !in queue
      modifies this`first, this`last, this`queue, this`pending, this`arrived, n`order, last
      ensures Valid() && arrived == old(arrived) + [n.Said()] && queue == old(queue) + [n]
      ensures n.Said() == old(n.Said())
    {
      LinkBehind(n);
      n.order := |arrived|;
      pending, arrived := pending + [n.Said()], arrived + [n.Said()];
    }

    /** usbComplete for an outstanding request. */
    method UsbComplete(n: Node, kind: Kind, status: int, remaining: int)
      requires Valid() && n.outstanding && !n.freed
      modifies this`first, this`last, this`queue, this`pending, this`arrived, n, last
      ensures Valid() && !n.outstanding && !n.freed
      ensures arrived == if accepting then old(arrived) + [Report(n, kind, status, remaining)] else old(arrived)
      ensures queue == if accepting then old(queue) + [n] else old(queue)
    {
      if accepting {
        Fill(n, kind, status, remaining);
        Append(n);
      } else {
        n.outstanding := false;
      }
    }

    // The work loop takes over the whole shared list.
    method Grab()
      requires Valid() && current == null
      modifies this`first, this`last, this`current, this`batch
      ensures Valid() && first == null && (current == null <==> queue == [])
    {
      current := first;
      first := null;
      last := null;
      batch := |queue|;
    }

    // The top of the inner loop: the link is read before the node is handled.
    method TakeNext() returns (n: Node)
      requires Valid() && current != null
      modifies this`current, this`queue, this`batch, this`pending, this`taken
      ensures Valid() && n == old(current) && Owned(n)
      ensures taken == old(taken) + [n.Said()] && queue == old(queue)[1..]
    {
      n := current;
      current := current.next;
      queue, batch := queue[1..], batch - 1;
      taken, pending := taken + [n.Said()], pending[1..];
    }

    /** Handling a node leaves both lists alone, whatever becomes of it: a read or write may be with
        the USB stack again, even completed again, before the loop goes on; the node of a modem
        request is freed. */
    method Handle(n: Node)
      requires Valid() && Owned(n)
      modifies n, `handled
      ensures Valid() && n.Said() == old(n.Said()) && handled == old(handled) + [n.Said()]
      ensures n.freed == (n.kind == ModemDone) && (n.freed ==> !n.outstanding)
    {
      handled := handled + [n.Said()];
      if n.kind == ModemDone {
        n.freed := true;
      } else {
        var again: bool := *;
        n.outstanding := again;
      }
    }

    ghost predicate From(nodes: set<Node>)
      reads this
    {
      forall i :: 0 <= i < |queue| ==> queue[i] in nodes
    }

    // The node is the work loop's own: taken out of the list and not with the USB stack.
    ghost predicate Owned(n: Node)
      reads this, n
    {
      n !in queue && !n.outstanding && !n.freed
    }

    method CompleteOne(n: Node, ghost all: set<Node>, ghost own: Node?, kind: Kind, status: int, remaining: int)
      requires Valid() && From(all) && n in all && n.outstanding && !n.freed
      modifies this`first, this`last, this`queue, this`pending, this`arrived, n, last
      ensures Valid() && From(all) && |queue| <= |old(queue)| + 1
      ensures old(arrived) <= arrived && (own != null && old(Owned(own)) ==> Owned(own) && own.Said() == old(own.Said()))
    {
      UsbComplete(n, kind, status, remaining);
    }

    // What the USB stack does at any moment: completes some of the requests it has, at most supply.
    method Meanwhile(nodes: seq<Node>, supply: nat, ghost own: Node?) returns (left: nat)
      requires Valid() && From(set n | n in nodes)
      modifies this`first, this`last, this`queue, this`pending, this`arrived, nodes
      ensures Valid() && From(set n | n in nodes) && left + |queue| <= supply + |old(queue)|
      ensures old(arrived) <= arrived && (own != null && old(Owned(own)) ==> Owned(own) && own.Said() == old(own.Said()))
    {
      left := supply;
      for i := 0 to supply
        invariant Valid() && From(set n | n in nodes) && left + |queue| <= supply + |old(queue)|
        invariant old(arrived) <= arrived && left >= supply - i
        invariant own != null && old(Owned(own)) ==> Owned(own) && own.Said() == old(own.Said())
      {
        var k: nat, kind: Kind, status: int, remaining: int := *, *, *, *;
        if k < |nodes| && nodes[k].outstanding && !nodes[k].freed {
          CompleteOne(nodes[k], (set n | n in nodes), own, kind, status, remaining);
          left := left - 1;
        }
      }
    }

    // The top of the inner loop, with the USB stack at work before the node is handled.
    method TakeOne(nodes: seq<Node>, supply: nat) returns (n: Node, left: nat)
      requires Valid() && From(set n | n in nodes) && current != null
      modifies this`first, this`last, this`current, this`queue, this`batch, this`pending, this`taken, this`arrived, nodes
      ensures Valid() && From(set n | n in nodes) && left + |queue| < supply + |old(queue)|
      ensures n == old(current) && Owned(n) && taken == old(taken) + [n.Said()] && old(arrived) <= arrived
    {
      n := TakeNext();
      left := Meanwhile(nodes, supply, n);
    }

    // One turn of the inner loop, with the USB stack at work before and after the handling.
    method HandleOne(nodes: seq<Node>, supply: nat) returns (left: nat)
      requires Valid() && From(set n | n in nodes) && current != null && handled == taken
      modifies this, nodes
      ensures Valid() && From(set n | n in nodes) && left + |queue| < supply + |old(queue)|
      ensures old(arrived) <= arrived && old(handled) < handled == taken
    {
      var n;
      n, left := TakeOne(nodes, supply);
      Handle(n);
      left := Meanwhile(nodes, left, null);
    }

    /** handleCompletionGated, while at most supply more requests complete: it ends, and when it
        finds the list empty for the last time, everything that ever arrived has been handled. */
    method HandleCompletions(nodes: seq<Node>, supply: nat)
      requires Valid() && From(set n | n in nodes) && current == null && handled == taken
      modifies this, nodes
      ensures Valid() && current == null && old(arrived) <= arrived == handled
    {
      var left: nat := supply;
      Grab();
      while current != null
        invariant Valid() && From(set n | n in nodes) && old(arrived) <= arrived && handled == taken
        invariant current == null <==> queue == []
        decreases left + |queue|
      {
        ghost var start := left + |queue|;
        while current != null
          invariant Valid() && From(set n | n in nodes) && old(arrived) <= arrived && handled == taken
          invariant left + |queue| < start || (left + |queue| == start && current != null)
          decreases left + |queue|
        {
          left := HandleOne(nodes, left);
        }
        Grab();
      }
    }
  }
}
