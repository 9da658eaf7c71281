/** include/lob/order.hpp, slab_allocator.hpp, intrusive_list.hpp and price_level.hpp. An Order* is the
    index of a slab slot, nullptr is NULL. */
module OrderStore {
  import opened LobTypes

  datatype Order = Order(prev: int, next: int, id: OrderId, qty: Quantity, price: Price,
                         levelIdx: nat, side: Side)

  /** The slot union: a free-list node or a live order. */
  datatype Slot = Free(nextFree: int) | Live(order: Order)

  /** PriceLevel: the embedded list header and the two running aggregates. */
  datatype Level = Level(head: int, tail: int, total: Quantity, count: Quantity)

  const EMPTY_LEVEL := Level(NULL, NULL, 0, 0)

  /** Element i, or NULL off either end. */
  function At(nodes: seq<nat>, i: int): int {
    if 0 <= i < |nodes| then nodes[i] else NULL
  }

  ghost predicate Distinct(nodes: seq<nat>) {
    forall i, j :: 0 <= i < j < |nodes| ==> nodes[i] != nodes[j]
  }

  /** nodes[..k] + nodes[k + 1..] */
  function Without(nodes: seq<nat>, k: nat): (r: seq<nat>)
    requires k < |nodes|
    ensures |r| == |nodes| - 1
    ensures forall i :: 0 <= i < |r| ==> r[i] == nodes[if i < k then i else i + 1]
  {
    nodes[..k] + nodes[k + 1..]
  }

  lemma WithoutMembers(nodes: seq<nat>, k: nat)
    requires k < |nodes| && Distinct(nodes)
    ensures Distinct(Without(nodes, k))
    ensures forall n :: n in Without(nodes, k) <==> n in nodes && n != nodes[k]
  {
    var r := Without(nodes, k);
    forall n | n in nodes && n != nodes[k] ensures n in r {
      var i :| 0 <= i < |nodes| && nodes[i] == n;
      assert r[if i < k then i else i - 1] == n;
    }
    forall n | n in r ensures n in nodes && n != nodes[k] {
      var i :| 0 <= i < |r| && r[i] == n;
      assert nodes[if i < k then i else i + 1] == n;
    }
  }

  /** Distinct indices below n that all avoid p are fewer than n. */
  lemma Pigeonhole(nodes: seq<nat>, n: nat, p: nat)
    requires Distinct(nodes) && p < n && p !in nodes
    requires forall i :: 0 <= i < |nodes| ==> nodes[i] < n
    ensures |nodes| < n
  {
    SubsetCard(Elements(nodes) + {p}, Below(n));
  }

  ghost function Below(n: nat): (s: set<nat>)
    ensures |s| == n && forall i: nat :: i in s <==> i < n
  {
    if n == 0 then {} else Below(n - 1) + {n - 1}
  }

  ghost function Elements(nodes: seq<nat>): (s: set<nat>)
    requires Distinct(nodes)
    ensures |s| == |nodes| && forall x :: x in s <==> x in nodes
  {
    if nodes == [] then {} else
      var s := Elements(nodes[1..]);
      assert forall x :: x in nodes <==> x == nodes[0] || x in nodes[1..];
      s + {nodes[0]}
  }

  // ----- the free list ---------------------------------------------------------

  /** Following nextFree from head visits exactly `free`, in order, and ends. */
  ghost predicate Threaded(store: seq<Slot>, head: int, free: seq<nat>) {
    && head == At(free, 0)
    && Distinct(free)
    && forall i :: 0 <= i < |free| ==> free[i] < |store| && store[free[i]] == Free(At(free, i + 1))
  }

  class SlabAllocator {
    const storage: array<Slot>
    var freeHead: int
    var inUse: nat
    ghost var free: seq<nat>

    ghost predicate Valid()
      reads this, storage
    {
      Threaded(storage[..], freeHead, free) && |free| + inUse == storage.Length
    }

    /** Threads the slots last to first, so that they are handed out in ascending order. */
    constructor (capacity: nat)
      ensures Valid() && fresh(storage)
      ensures storage.Length == capacity && inUse == 0
      ensures |free| == capacity && forall i :: 0 <= i < capacity ==> free[i] == i
      ensures forall n :: 0 <= n < capacity ==> storage[n].Free?
    {
      storage := new Slot[capacity](_ => Free(NULL));
      freeHead, inUse, free := NULL, 0, [];
      new;
      var i := capacity;
      while i > 0
        invariant i <= capacity && inUse == 0
        invariant |free| == capacity - i && forall k :: 0 <= k < |free| ==> free[k] == i + k
        invariant freeHead == At(free, 0)
        invariant forall n :: i <= n < capacity ==> storage[n] == Free(if n + 1 < capacity then n + 1 else NULL)
      {
        i := i - 1;
        storage[i] := Free(freeHead);
        freeHead := i;
        free := [i] + free;
      }
      assert Threaded(storage[..], freeHead, free);
    }

    /** Hands out the first free slot; NULL and no change when there is none. */
    method Allocate() returns (p: int)
      requires Valid()
      modifies this
      ensures Valid()
      ensures p == At(old(free), 0)
      ensures free == if p == NULL then old(free) else old(free)[1..]
      ensures inUse == if p == NULL then old(inUse) else old(inUse) + 1
    {
      p := freeHead;
      if p == NULL { return; }
      freeHead := storage[p].nextFree;
      inUse := inUse + 1;
      free := free[1..];
    }

    /** Takes back a slot that is not free; it will be the next one handed out. */
    method Deallocate(p: nat)
      requires Valid()
      requires p < storage.Length && p !in free
      modifies this, storage
      ensures Valid()
      ensures free == [p] + old(free)
      ensures inUse == old(inUse) - 1
      ensures storage[p].Free?
      ensures forall n :: 0 <= n < storage.Length && n != p ==> storage[n] == old(storage[n])
    {
      Pigeonhole(free, storage.Length, p);
      storage[p] := Free(freeHead);
      freeHead := p;
      inUse := inUse - 1;
      free := [p] + free;
    }
  }

  // ----- the level lists ---------------------------------------------------------

  /** Node i of the list is a live order linked to its neighbours. */
  ghost predicate Linked(store: seq<Slot>, nodes: seq<nat>, i: int)
    requires 0 <= i < |nodes|
  {
    && nodes[i] < |store| && store[nodes[i]].Live?
    && store[nodes[i]].order.prev == At(nodes, i - 1)
    && store[nodes[i]].order.next == At(nodes, i + 1)
  }

  /** head, tail and the links describe exactly the sequence `nodes`. */
  ghost predicate ListAt(store: seq<Slot>, head: int, tail: int, nodes: seq<nat>) {
    && head == At(nodes, 0)
    && tail == At(nodes, |nodes| - 1)
    && Distinct(nodes)
    && forall i :: 0 <= i < |nodes| ==> Linked(store, nodes, i)
  }

  /** Equal but for the links of a live order. */
  ghost predicate SameButLinks(a: Slot, b: Slot) {
    a == b || (a.Live? && b.Live? && b.order == a.order.(prev := b.order.prev, next := b.order.next))
  }

  /** Only links changed, and only those of the nodes in `touched`. */
  ghost predicate Relinked(was: seq<Slot>, store: seq<Slot>, touched: seq<nat>) {
    && |store| == |was|
    && forall k :: 0 <= k < |was| ==> SameButLinks(was[k], store[k]) && (k !in touched ==> store[k] == was[k])
  }

  /** IntrusiveList::push_back on the list embedded in levels[i]. */
  method PushBack(store: array<Slot>, levels: array<Level>, i: nat, node: nat, ghost nodes: seq<nat>)
    requires i < levels.Length && ListAt(store[..], levels[i].head, levels[i].tail, nodes)
    requires node < store.Length && store[node].Live? && node !in nodes
    modifies store, levels
    ensures ListAt(store[..], levels[i].head, levels[i].tail, nodes + [node])
    ensures Relinked(old(store[..]), store[..], nodes + [node])
    ensures levels[..] == old(levels[..])[i := old(levels[i]).(head := levels[i].head, tail := levels[i].tail)]
  {
    var l := levels[i];
    ghost var k := |nodes|;
    assert k > 0 ==> Linked(store[..], nodes, k - 1);
    store[node] := Live(store[node].order.(prev := l.tail, next := NULL));
    if l.tail != NULL {
      store[l.tail] := Live(store[l.tail].order.(next := node));
    } else {
      levels[i] := levels[i].(head := node);
    }
    levels[i] := levels[i].(tail := node);
    forall j | 0 <= j < k + 1 ensures Linked(store[..], nodes + [node], j) {
      if j < k { assert Linked(old(store[..]), nodes, j); }
    }
  }

  /** Once its two neighbours point past node k, the others are linked without it. */
  lemma LinkedPast(was: seq<Slot>, store: seq<Slot>, nodes: seq<nat>, k: nat, j: nat)
    requires Distinct(nodes) && k < |nodes| && |store| == |was|
    requires forall i :: 0 <= i < |nodes| ==> Linked(was, nodes, i)
    requires forall m :: 0 <= m < |was| && m != At(nodes, k - 1) && m != At(nodes, k + 1) ==> store[m] == was[m]
    requires k > 0 ==>
      nodes[k - 1] < |was| && was[nodes[k - 1]].Live? &&
      store[nodes[k - 1]] == Live(was[nodes[k - 1]].order.(next := At(nodes, k + 1)))
    requires k + 1 < |nodes| ==>
      nodes[k + 1] < |was| && was[nodes[k + 1]].Live? &&
      store[nodes[k + 1]] == Live(was[nodes[k + 1]].order.(prev := At(nodes, k - 1)))
    requires j < |nodes| - 1
    ensures Linked(store, Without(nodes, k), j)
  {
    assert Linked(was, nodes, if j < k then j else j + 1);
  }

  /** IntrusiveList::unlink: takes the k-th node out of the list embedded in levels[i]. */
  method Unlink(store: array<Slot>, levels: array<Level>, i: nat, node: nat, ghost nodes: seq<nat>, ghost k: nat)
    requires i < levels.Length && ListAt(store[..], levels[i].head, levels[i].tail, nodes)
    requires k < |nodes| && nodes[k] == node && node < store.Length
    modifies store, levels
    ensures ListAt(store[..], levels[i].head, levels[i].tail, Without(nodes, k))
    ensures Relinked(old(store[..]), store[..], nodes) && store[..][node] == old(store[..])[node]
    ensures levels[..] == old(levels[..])[i := old(levels[i]).(head := levels[i].head, tail := levels[i].tail)]
  {
    assert Linked(store[..], nodes, k);
    assert k > 0 ==> Linked(store[..], nodes, k - 1);
    assert k + 1 < |nodes| ==> Linked(store[..], nodes, k + 1);
    var p, n := store[node].order.prev, store[node].order.next;
    if p != NULL {
      store[p] := Live(store[p].order.(next := n));
    } else {
      levels[i] := levels[i].(head := n);
    }
    if n != NULL {
      store[n] := Live(store[n].order.(prev := p));
    } else {
      levels[i] := levels[i].(tail := p);
    }
    forall j | 0 <= j < |nodes| - 1 ensures Linked(store[..], Without(nodes, k), j) {
      LinkedPast(old(store[..]), store[..], nodes, k, j);
    }
  }
}
