/**
 * The recency list of src/arrayQueue.h: an intrusive doubly-linked list laid
 * over a fixed array of nodes. A node is named by its index in that array;
 * a link is a node index or `Null` (the C `NULL` pointer).
 *
 * The list operations are modelled exactly as written. They do not keep a
 * well-formed list: `MoveToFront` never writes `tail` and never points the
 * former head back at the moved node, and only `PopTail` (which itself needs
 * a non-NULL `tail`) ever writes `tail`. The lemmas at the end show what that
 * means for every state the program can reach.
 */
module ArrayQueues {
  import opened Wrappers

  /** The NULL link. */
  const Null: int := -1

  /** A link is NULL or the index of one of `n` nodes. */
  predicate LinkIn(l: int, n: nat)
  {
    Null <= l < n
  }

  /** The link part of a queue: every node's `next` and `previous`, and the queue's `head` and `tail`. */
  datatype LinkState = LinkState(next: seq<int>, prev: seq<int>, head: int, tail: int)
  {
    /** Number of nodes. */
    function Count(): nat { |next| }

    /** Every link is NULL or names an existing node. */
    predicate WellIndexed()
    {
      && |next| == |prev|
      && LinkIn(head, |next|)
      && LinkIn(tail, |next|)
      && (forall i :: 0 <= i < |next| ==> LinkIn(next[i], |next|))
      && (forall i :: 0 <= i < |prev| ==> LinkIn(prev[i], |next|))
    }
  }

  /** The links after `arrayQueue_init`: everything NULL. */
  function Initial(capacity: nat): (l: LinkState)
    ensures l.WellIndexed() && l.Count() == capacity
    ensures l.head == Null && l.tail == Null
    ensures forall i :: 0 <= i < capacity ==> l.next[i] == Null && l.prev[i] == Null
  {
    LinkState(seq(capacity, _ => Null), seq(capacity, _ => Null), Null, Null)
  }

  /**
   * The links after `arrayQueue_move_to_front(node)`. The writes happen in the
   * source's order, so a later write wins when two of them hit the same node.
   */
  function MovedToFront(l: LinkState, node: nat): (r: LinkState)
    requires l.WellIndexed() && node < l.Count()
    ensures r.WellIndexed() && r.Count() == l.Count()
    // the node becomes head; tail is never written
    ensures r.head == node && r.tail == l.tail
    // the node's former neighbours are spliced together wherever they exist
    ensures l.prev[node] != Null ==> r.next[l.prev[node]] == l.next[node]
    ensures l.next[node] != Null ==> r.prev[l.next[node]] == l.prev[node]
    // the node points at the former head (itself, if it was head) and has no predecessor,
    // unless a splice write above landed on the node itself
    ensures l.prev[node] != node ==> r.next[node] == l.head
    ensures l.next[node] != node ==> r.prev[node] == Null
    // the former head's `previous` is not pointed back at the node; no other node changes
    ensures forall i :: 0 <= i < l.Count() && i != node && i != l.prev[node] ==> r.next[i] == l.next[i]
    ensures forall i :: 0 <= i < l.Count() && i != node && i != l.next[node] ==> r.prev[i] == l.prev[i]
    // a `previous` link is only ever copied from another one, so all-NULL stays all-NULL
    ensures NeverLinkedBack(l) ==> NeverLinkedBack(r)
  {
    var formerPrevious := l.prev[node];
    var formerNext := l.next[node];
    var formerHead := l.head;
    var next1 := l.next[node := formerHead];
    var prev1 := l.prev[node := Null];
    var next2 := if formerPrevious != Null then next1[formerPrevious := formerNext] else next1;
    var prev2 := if formerNext != Null then prev1[formerNext := formerPrevious] else prev1;
    LinkState(next2, prev2, node, l.tail)
  }

  /** The links after `arrayQueue_pop_tail`, which dereferences `tail` and then the new `tail`. */
  function PoppedTail(l: LinkState): (r: LinkState)
    requires l.WellIndexed() && l.tail != Null && l.prev[l.tail] != Null
    ensures r.WellIndexed() && r.Count() == l.Count()
    // the former tail's predecessor becomes tail and loses its forward link
    ensures r.tail == l.prev[l.tail] && r.next[r.tail] == Null
    // the former tail is unlinked in both directions; head is untouched
    ensures r.next[l.tail] == Null && r.prev[l.tail] == Null && r.head == l.head
    ensures forall i :: 0 <= i < l.Count() && i != l.tail && i != r.tail ==> r.next[i] == l.next[i]
    ensures forall i :: 0 <= i < l.Count() && i != l.tail ==> r.prev[i] == l.prev[i]
  {
    var formerTail := l.tail;
    var newTail := l.prev[formerTail];
    var next1 := l.next[newTail := Null];
    var prev1 := l.prev[formerTail := Null];
    var next2 := next1[formerTail := Null];
    LinkState(next2, prev1, l.head, newTail)
  }

  /**
   * The queue itself: `nodes` is split into three parallel arrays, one per
   * `Node` field. `M` is what a node's `memory` points to.
   */
  class ArrayQueue<M> {
    var memory: array<Option<M>>
    var next: array<int>
    var prev: array<int>
    var head: int
    var tail: int

    ghost predicate Valid()
      reads this, next, prev
    {
      && next != prev
      && next.Length == prev.Length == memory.Length
      && Links().WellIndexed()
    }

    function Links(): LinkState
      reads this, next, prev
    {
      LinkState(next[..], prev[..], head, tail)
    }

    function Capacity(): nat
      reads this
    {
      memory.Length
    }

    /** `arrayQueue_init`: `capacity` zeroed nodes, head and tail NULL. */
    constructor (capacity: nat)
      ensures Valid() && fresh(memory) && fresh(next) && fresh(prev)
      ensures Capacity() == capacity && Links() == Initial(capacity)
      ensures forall i :: 0 <= i < capacity ==> memory[i] == None
    {
      memory := new Option<M>[capacity](_ => None);
      next := new int[capacity](_ => Null);
      prev := new int[capacity](_ => Null);
      head := Null;
      tail := Null;
    }

    /**
     * `arrayQueue_deinit`: head and tail become NULL and the node array is
     * released, so no node can be reached afterwards. The buffers the nodes
     * pointed at are not released.
     */
    method Deinit()
      modifies this
      ensures Valid() && head == Null && tail == Null && Capacity() == 0
      ensures fresh(memory) && fresh(next) && fresh(prev)
    {
      head := Null;
      tail := Null;
      memory := new Option<M>[0];
      next := new int[0];
      prev := new int[0];
    }

    /** `arrayQueue_get_by_index`: node `i`, unchecked in the source, so the caller keeps `i` in range. */
    method GetByIndex(i: nat) returns (node: nat)
      requires i < Capacity()
      ensures node == i && node < Capacity()
    {
      node := i;
    }

    /** `arrayQueue_get_tail`. */
    method GetTail() returns (t: int)
      requires Valid()
      ensures t == tail && LinkIn(t, Capacity())
    {
      t := tail;
    }

    /** `arrayQueue_move_to_front`. */
    method MoveToFront(node: nat)
      requires Valid() && node < Capacity()
      modifies this, next, prev
      ensures Valid()
      ensures memory == old(memory) && next == old(next) && prev == old(prev)
      ensures Links() == MovedToFront(old(Links()), node)
    {
      var formerPrevious := prev[node];
      var formerNext := next[node];
      var formerHead := head;

      head := node;
      prev[node] := Null;
      next[node] := formerHead;

      if formerPrevious != Null {
        next[formerPrevious] := formerNext;
      }
      if formerNext != Null {
        prev[formerNext] := formerPrevious;
      }
    }

    /** `arrayQueue_pop_tail`: dereferences `tail` and its predecessor, hence the requires. */
    method PopTail()
      requires Valid() && tail != Null && prev[tail] != Null
      modifies this, next, prev, memory
      ensures Valid()
      ensures memory == old(memory) && next == old(next) && prev == old(prev)
      ensures Links() == PoppedTail(old(Links()))
      ensures memory[..] == old(memory[..])[old(tail) := None]
    {
      var formerTail := tail;

      tail := prev[formerTail];
      next[tail] := Null;

      memory[formerTail] := None;
      prev[formerTail] := Null;
      next[formerTail] := Null;
    }
  }

  /** True of the links of every state the program reaches: no `previous` link and no `tail` is ever set. */
  predicate NeverLinkedBack(l: LinkState)
  {
    l.tail == Null && forall i :: 0 <= i < |l.prev| ==> l.prev[i] == Null
  }

  /** The links after moving each of `nodes` to the front in turn. */
  function MovedAll(l: LinkState, nodes: seq<nat>): (r: LinkState)
    requires l.WellIndexed()
    requires forall k :: 0 <= k < |nodes| ==> nodes[k] < l.Count()
    ensures r.WellIndexed() && r.Count() == l.Count()
    decreases |nodes|
  {
    if |nodes| == 0 then l else MovedAll(MovedToFront(l, nodes[0]), nodes[1..])
  }

  /**
   * Starting from `arrayQueue_init`, any sequence of `move_to_front` calls
   * leaves `tail` NULL: `pop_tail` and the cache's eviction branch, which
   * both dereference `tail`, can never run without a NULL dereference.
   */
  lemma {:induction false} TailStaysNull(capacity: nat, nodes: seq<nat>)
    requires forall k :: 0 <= k < |nodes| ==> nodes[k] < capacity
    ensures MovedAll(Initial(capacity), nodes).tail == Null
    ensures NeverLinkedBack(MovedAll(Initial(capacity), nodes))
  {
    MovesKeepNeverLinkedBack(Initial(capacity), nodes);
  }

  lemma {:induction false} MovesKeepNeverLinkedBack(l: LinkState, nodes: seq<nat>)
    requires l.WellIndexed() && NeverLinkedBack(l)
    requires forall k :: 0 <= k < |nodes| ==> nodes[k] < l.Count()
    ensures NeverLinkedBack(MovedAll(l, nodes))
    decreases |nodes|
  {
    if |nodes| > 0 {
      MovesKeepNeverLinkedBack(MovedToFront(l, nodes[0]), nodes[1..]);
    }
  }

  /**
   * Moving the current head to the front is not a no-op: the head's `next`
   * becomes the head itself (a one-node cycle), whatever it was before.
   */
  lemma MoveHeadMakesSelfLoop(l: LinkState)
    requires l.WellIndexed() && l.head != Null && l.prev[l.head] == Null
    ensures MovedToFront(l, l.head).next[l.head] == l.head
    ensures l.next[l.head] != l.head ==> MovedToFront(l, l.head) != l
  {
  }
}
