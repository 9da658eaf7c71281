/** include/lob/order_book.hpp: the matching engine, proved against the naive book. */
module OrderBooks {
  import opened LobTypes
  import opened OrderStore
  import opened NaiveBook
  import opened NaiveRuns
  import opened BookRep
  import opened BookChanges
  import opened BookQueries
  import opened BookMatching
  import opened Bitmaps
  import opened OrderIdMaps
  import opened BookEdits
  import opened Words

  /** Takes the k-th order of level l off its list, and its quantity and itself out of the level's sums. */
  method TakeOut(store: array<Slot>, levels: array<Level>, l: nat, n: nat, ghost nodes: seq<nat>, ghost k: nat)
    requires l < levels.Length && ListAt(store[..], levels[l].head, levels[l].tail, nodes)
    requires k < |nodes| && nodes[k] == n && n < store.Length && store[n].Live?
    requires levels[l].count > 0
    modifies store, levels
    ensures Relinked(old(store[..]), store[..], nodes)
    ensures store[n].Live? && store[n].order.(prev := 0, next := 0) == old(store[n].order).(prev := 0, next := 0)
    ensures levels[..] == old(levels[..])[l := levels[l]]
    ensures LevelLost(store[..], old(levels[l]), levels[l], Without(nodes, k), old(store[n].order.qty))
  {
    ghost var was := levels[..];
    Unlink(store, levels, l, n, nodes, k);
    levels[l] := Lowered(levels[l], store[n].order.qty);
    levels[l] := levels[l].(count := levels[l].count - 1);
    assert levels[..] == was[l := levels[l]];
  }

  /** Puts an order at the back of level l's list, and its quantity and itself into the level's sums. */
  method Append(store: array<Slot>, levels: array<Level>, l: nat, n: nat, ghost nodes: seq<nat>)
    requires l < levels.Length && ListAt(store[..], levels[l].head, levels[l].tail, nodes)
    requires n < store.Length && store[n].Live? && n !in nodes && levels[l].count + 1 < TWO_TO_THE_32
    modifies store, levels
    ensures Relinked(old(store[..]), store[..], nodes + [n])
    ensures levels[..] == old(levels[..])[l := levels[l]]
    ensures LevelGained(store[..], old(levels[l]), levels[l], nodes + [n], old(store[n].order.qty))
  {
    ghost var was := levels[..];
    PushBack(store, levels, l, n, nodes);
    levels[l] := Raised(levels[l], store[n].order.qty);
    levels[l] := levels[l].(count := levels[l].count + 1);
    assert levels[..] == was[l := levels[l]];
  }

  /** The id index of an engine: at least two slots for every order the slab can hold. */
  method MakeIndex(maxOrders: nat, hash: Hash, backshift: Backshift) returns (m: OrderIdMap)
    requires maxOrders < TWO_TO_THE_32
    ensures m.Valid() && fresh(m) && fresh(m.slots) && m.entries == map[] && m.size == 0
    ensures m.hash == hash && m.backshift == backshift
    ensures m.slots.Length == RoundUpPow2(2 * maxOrders) && m.slots.Length >= 2 && m.slots.Length >= 2 * maxOrders
    ensures m.slots[..] == seq(RoundUpPow2(2 * maxOrders), _ => Entry(INVALID_ORDER_ID, NULL))
  {
    var capacity := NextPow2(maxOrders * 2);
    Capacity(capacity);
    RoundUpIsLeast(capacity);
    SameCapacity(maxOrders * 2, capacity);
    m := new OrderIdMap(capacity, hash, backshift);
  }

  /** Rounding up twice is rounding up once. */
  lemma SameCapacity(n: nat, p: nat)
    requires n <= p <= WORD / 2 && IsPow2(p) && (forall k: nat :: n <= Pow2(k) ==> p <= Pow2(k))
    ensures RoundUpPow2(p) == RoundUpPow2(n)
  {
    hide RoundUpPow2, Pow2;
    RoundUpIsLeast(p);
    RoundUpIsLeast(n);
    var i: nat :| RoundUpPow2(p) == Pow2(i);
    var j: nat :| RoundUpPow2(n) == Pow2(j);
    assert p <= Pow2(j);
  }

  method NextPow2(n: nat) returns (p: nat)
    requires n <= WORD / 2
    ensures IsPow2(p) && n <= p
    ensures forall k: nat :: n <= Pow2(k) ==> p <= Pow2(k)
  {
    p := 1;
    ghost var j: nat := 0;
    while p < n
      invariant p == Pow2(j)
      invariant forall k: nat :: n <= Pow2(k) ==> p <= Pow2(k)
      decreases n - p
    {
      forall k: nat | n <= Pow2(k) ensures Pow2(j + 1) <= Pow2(k) {
        if k <= j { Pow2Mono(k, j); } else { Pow2Mono(j + 1, k); }
      }
      p := p * 2;
      j := j + 1;
    }
  }

  lemma Capacity(p: nat)
    requires forall k: nat :: WORD / 2 <= Pow2(k) ==> p <= Pow2(k)
    ensures p <= WORD / 2
  {
    Pow2Word();
  }

  class OrderBook {
    const cfg: Config
    const slab: SlabAllocator
    const ids: OrderIdMap
    const bidLevels: array<Level>
    const askLevels: array<Level>
    const bidBits: Bitmap
    const askBits: Bitmap
    var bestBid: nat
    var bestAsk: nat
    ghost var bidQ: seq<seq<nat>>
    ghost var askQ: seq<seq<nat>>
    /** Where each resting order's slot is: what the id index should hold. */
    ghost var index: map<OrderId, int>

    ghost function Repr(): set<object> {
      {this, slab, slab.storage, ids, ids.slots, bidLevels, askLevels, bidBits.words, askBits.words}
    }

    ghost predicate Separate() {
      && bidLevels != askLevels && bidBits.words != askBits.words
      && cfg.Valid()
      && bidLevels.Length == askLevels.Length == cfg.numLevels
      && bidBits.Valid() && askBits.Valid()
      && cfg.numLevels <= 64 * bidBits.words.Length && cfg.numLevels <= 64 * askBits.words.Length
      && slab.storage.Length == cfg.maxOrders
      && ids.slots.Length >= 2 && ids.slots.Length >= 2 * cfg.maxOrders
    }

    ghost function R(): Rep
      reads Repr()
    {
      Rep(slab.storage[..], slab.free, bidLevels[..], askLevels[..], bidQ, askQ, index)
    }

    /** The abstract book. */
    ghost function Abs(): Book
      reads Repr()
    {
      BookRep.Abs(R())
    }

    /** Slab, lists and levels; the id index need only be usable. */
    ghost predicate Lists()
      reads Repr()
    {
      && Separate()
      && slab.Valid() && ids.Usable()
      && |index| == slab.inUse
      && Core(cfg, R()) && Counted(R())
    }

    ghost predicate Edges()
      reads Repr()
    {
      && Edge(Buy, bidQ, bidBits.Members(), bestBid)
      && Edge(Sell, askQ, askBits.Members(), bestAsk)
    }

    /** Everything but the contents of the id index. */
    ghost predicate Kept()
      reads Repr()
    {
      Lists() && Edges()
    }

    /** The id index holds the resting orders, though a search may have lost sight of some. Only the coded erase
        leads from Valid to here and to Kept. */
    ghost predicate Sane()
      reads Repr()
    {
      Kept() && ids.entries == index
    }

    ghost predicate Valid()
      reads Repr()
    {
      Sane() && ids.Valid()
    }

    /** The id index is right and stays so under these edits. */
    ghost predicate Follows(edits: seq<Edit>)
      reads this`index, ids, ids.slots
    {
      ids.Valid() && ids.entries == index && ids.Safe(edits)
    }

    /** A new order can get into the id index: its id is not there, and there is room. */
    ghost predicate CanTake(id: OrderId)
      reads this`index, ids, ids.slots
    {
      id !in ids.entries && ((ids.Valid() && ids.entries == index) || |ids.entries| < cfg.maxOrders)
    }

    lemma ValidIsSane()
      requires Valid()
      ensures Sane() && Kept()
    {
      hide Core, Counted, Edge, Threaded;
    }

    constructor (cfg: Config, hash: Hash, backshift: Backshift)
      requires cfg.Valid()
      ensures Valid()
      ensures fresh(slab) && fresh(slab.storage) && fresh(ids) && fresh(ids.slots)
      ensures fresh(bidLevels) && fresh(askLevels) && fresh(bidBits.words) && fresh(askBits.words)
      ensures this.cfg == cfg && Abs() == Book([], [])
      ensures ids.hash == hash && ids.backshift == backshift && ids.slots[..] == FreshTable(cfg)
    {
      hide Core, AllReachable, Holds, HasEmpty, Threaded, BookRep.Abs, Counted, IsPow2, RoundUpPow2, Edge, R, Abs,
        Valid;
      this.cfg := cfg;
      slab := new SlabAllocator(cfg.maxOrders);
      var idMap := MakeIndex(cfg.maxOrders, hash, backshift);
      ids := idMap;
      bidLevels := new Level[cfg.numLevels](_ => EMPTY_LEVEL);
      askLevels := new Level[cfg.numLevels](_ => EMPTY_LEVEL);
      bidBits := new Bitmap(cfg.numLevels);
      askBits := new Bitmap(cfg.numLevels);
      bestBid, bestAsk := NO_BEST, NO_BEST;
      bidQ := seq(cfg.numLevels, _ => []);
      askQ := seq(cfg.numLevels, _ => []);
      this.index := map[];
      new;
      NewIsValid();
    }

    /** Empty levels, bitmaps, slab and index make a valid engine for the empty book. */
    lemma NewIsValid()
      requires Separate() && slab.Valid() && slab.inUse == 0 && ids.Valid() && ids.entries == index == map[]
      requires |slab.free| == slab.storage.Length
      requires forall n :: 0 <= n < slab.storage.Length ==> slab.storage[n].Free? && slab.free[n] == n
      requires |bidQ| == |askQ| == cfg.numLevels
      requires forall l :: 0 <= l < cfg.numLevels ==>
        bidLevels[l] == EMPTY_LEVEL && askLevels[l] == EMPTY_LEVEL && bidQ[l] == [] && askQ[l] == []
      requires bidBits.Members() == {} && askBits.Members() == {} && bestBid == bestAsk == NO_BEST
      ensures Valid() && Abs() == Book([], [])
    {
      hide Core, AllReachable, Holds, HasEmpty, Threaded, BookRep.Abs, Counted, IsPow2, RoundUpPow2;
      EmptyCore(cfg, R());
    }

    function Levels(s: Side): array<Level> {
      if s.Buy? then bidLevels else askLevels
    }

    /** A bid level has just lost its last order: clear its bit and, if it was the best, find the next. */
    method BidEmptied(l: nat, ghost was: seq<seq<nat>>)
      requires bidBits.Valid() && l < |was| <= 64 * bidBits.words.Length
      requires Edge(Buy, was, bidBits.Members(), bestBid) && was[l] != [] && bidQ == was[l := []]
      modifies bidBits.words, this`bestBid
      ensures Edge(Buy, bidQ, bidBits.Members(), bestBid)
    {
      ghost var members, best := bidBits.Members(), bestBid;
      bidBits.Clear(l);
      assert best == l ==> forall m :: m in bidBits.Members() ==> m < l;
      if bestBid == l {
        if l == 0 {
          bestBid := NO_BEST;
        } else {
          var p := bidBits.FindPrevSet(l - 1);
          bestBid := if p == NOT_FOUND then NO_BEST else p;
        }
      }
      assert best == l && bestBid == NO_BEST ==> bidBits.Members() == {};
      EdgeCleared(Buy, was, l, members, best, bestBid);
    }

    method AskEmptied(l: nat, ghost was: seq<seq<nat>>)
      requires askBits.Valid() && l < |was| <= 64 * askBits.words.Length
      requires Edge(Sell, was, askBits.Members(), bestAsk) && was[l] != [] && askQ == was[l := []]
      modifies askBits.words, this`bestAsk
      ensures Edge(Sell, askQ, askBits.Members(), bestAsk)
    {
      ghost var members, best := askBits.Members(), bestAsk;
      askBits.Clear(l);
      assert best == l ==> forall m :: m in askBits.Members() ==> m > l;
      if bestAsk == l {
        var p := askBits.FindNextSet(l + 1);
        bestAsk := if p == NOT_FOUND then NO_BEST else p;
      }
      assert best == l && bestAsk == NO_BEST ==> askBits.Members() == {};
      EdgeCleared(Sell, was, l, members, best, bestAsk);
    }

    /** remove_from_book_ for a bid: unlink it and keep bitmap and best level up to date. */
    method RemoveBid(n: nat, l: nat, ghost k: nat)
      requires Separate() && slab.Valid() && Edge(Buy, bidQ, bidBits.Members(), bestBid)
      requires |bidQ| == cfg.numLevels && l < cfg.numLevels && k < |bidQ[l]| && bidQ[l][k] == n
      requires n < slab.storage.Length && slab.storage[n].Live?
      requires LevelOK(slab.storage[..], bidLevels[l], bidQ[l])
      modifies slab.storage, bidLevels, bidBits.words, this`bidQ, this`bestBid
      ensures slab.Valid() && Edge(Buy, bidQ, bidBits.Members(), bestBid)
      ensures Unlinked(old(R()), R(), Buy, l, k)
    {
      hide Threaded, LevelOK, LevelLost, Edge, Unlinked, ListAt;
      ghost var r, was, store := R(), bidQ, slab.storage[..];
      LevelList(store, bidLevels[l], was[l]);
      LevelCount(store, bidLevels[l], was[l]);
      TakeOut(slab.storage, bidLevels, l, n, bidQ[l], k);
      bidQ := bidQ[l := Without(bidQ[l], k)];
      if bidLevels[l].count == 0 {
        assert bidQ == was[l := []];
        BidEmptied(l, was);
      } else {
        EdgeKept(Buy, was, l, bidBits.Members(), bestBid, bidQ[l]);
      }
      ThreadedFrame(store, slab.storage[..], slab.freeHead, slab.free, was[l]);
      LeftIsUnlinked(r, Buy, l, k, slab.storage[..], bidLevels[..]);
    }

    /** remove_from_book_ for an ask. */
    method RemoveAsk(n: nat, l: nat, ghost k: nat)
      requires Separate() && slab.Valid() && Edge(Sell, askQ, askBits.Members(), bestAsk)
      requires |askQ| == cfg.numLevels && l < cfg.numLevels && k < |askQ[l]| && askQ[l][k] == n
      requires n < slab.storage.Length && slab.storage[n].Live?
      requires LevelOK(slab.storage[..], askLevels[l], askQ[l])
      modifies slab.storage, askLevels, askBits.words, this`askQ, this`bestAsk
      ensures slab.Valid() && Edge(Sell, askQ, askBits.Members(), bestAsk)
      ensures Unlinked(old(R()), R(), Sell, l, k)
    {
      hide Threaded, LevelOK, LevelLost, Edge, Unlinked, ListAt;
      ghost var r, was, store := R(), askQ, slab.storage[..];
      LevelList(store, askLevels[l], was[l]);
      LevelCount(store, askLevels[l], was[l]);
      TakeOut(slab.storage, askLevels, l, n, askQ[l], k);
      askQ := askQ[l := Without(askQ[l], k)];
      if askLevels[l].count == 0 {
        assert askQ == was[l := []];
        AskEmptied(l, was);
      } else {
        EdgeKept(Sell, was, l, askBits.Members(), bestAsk, askQ[l]);
      }
      ThreadedFrame(store, slab.storage[..], slab.freeHead, slab.free, was[l]);
      LeftIsUnlinked(r, Sell, l, k, slab.storage[..], askLevels[..]);
    }

    method RemoveFromBook(n: nat, ghost k: nat)
      requires Separate() && slab.Valid() && Edges()
      requires |bidQ| == |askQ| == cfg.numLevels
      requires n < slab.storage.Length && slab.storage[n].Live?
      requires var o := slab.storage[n].order;
        && o.levelIdx < cfg.numLevels
        && k < |R().Queues(o.side)[o.levelIdx]| && R().Queues(o.side)[o.levelIdx][k] == n
        && LevelOK(R().store, R().Levels(o.side)[o.levelIdx], R().Queues(o.side)[o.levelIdx])
      modifies slab.storage, bidLevels, askLevels, bidBits.words, askBits.words
      modifies this`bidQ, this`askQ, this`bestBid, this`bestAsk
      ensures slab.Valid() && Edges()
      ensures var o := old(slab.storage[n].order); Unlinked(old(R()), R(), o.side, o.levelIdx, k)
    {
      hide LevelOK, Threaded, Edge, Unlinked;
      var o := slab.storage[n].order;
      if o.side.Buy? { RemoveBid(n, o.levelIdx, k); } else { RemoveAsk(n, o.levelIdx, k); }
    }

    /** How an order leaves the engine: off its level, out of the id index, its slot back to the slab. */
    method Release(n: nat, id: OrderId, ghost k: nat, ghost more: seq<Edit>, ghost safe: bool)
      requires Separate() && slab.Valid() && ids.Usable() && Edges()
      requires |index| == slab.inUse
      requires |bidQ| == |askQ| == cfg.numLevels && id != INVALID_ORDER_ID && id in index
      requires n < slab.storage.Length && slab.storage[n].Live? && n !in slab.free
      requires var o := slab.storage[n].order;
        && o.id == id && o.levelIdx < cfg.numLevels
        && k < |R().Queues(o.side)[o.levelIdx]| && R().Queues(o.side)[o.levelIdx][k] == n
        && LevelOK(R().store, R().Levels(o.side)[o.levelIdx], R().Queues(o.side)[o.levelIdx])
      requires safe ==> Follows([Gone(id)] + more)
      modifies Repr()
      ensures slab.Valid() && ids.Usable() && Edges()
      ensures |index| == slab.inUse
      ensures var o := old(slab.storage[n].order); Dropped(old(R()), R(), o.side, o.levelIdx, k)
      ensures IdErased(id, old(ids.slots[..]), old(ids.entries))
      ensures index == old(index) - {id}
      ensures safe ==> Follows(more)
    {
      hide LevelOK, AllReachable, Holds, HasEmpty, Threaded, Edge, Unlinked, Dropped, SafeEdits, Finds, EraseSafe,
        ErasedFrom, IdErased;
      ghost var r := R();
      ghost var o := slab.storage[n].order;
      RemoveFromBook(n, k);
      UnlinkedFacts(r, R(), o.side, o.levelIdx, k);
      Forget(n, id, r, o.side, o.levelIdx, k, more, safe);
    }

    /** What the erase of id did to an index with these slots and entries: nothing if its search did not find id;
        else the entry is gone, by the coded erase in the one way the source has, and then a valid index is still
        valid exactly when that erase was safe. */
    ghost predicate IdErased(id: OrderId, was: Table, held: map<OrderId, int>)
      reads ids, ids.slots
    {
      if Finds(ids.hash, was, id) then
        && id in held && ids.entries == held - {id}
        && (ids.backshift.AsCoded? ==>
              && ErasedFrom(ids.hash, was, id, ids.slots[..])
              && (AllReachable(ids.hash, was) ==> (ids.Valid() <==> EraseSafe(ids.hash, was, id))))
      else ids.entries == held && ids.slots[..] == was
    }

    method RemoveOrder(n: nat, id: OrderId, ghost more: seq<Edit>, ghost safe: bool)
      requires Sane()
      requires id in index && index[id] == n && ids.Findable(id)
      requires safe ==> Valid() && ids.SafeFrom(Gone(id), more)
      modifies Repr()
      ensures Sane()
      ensures Abs() == NaiveBook.Cancel(old(Abs()), id).0
      ensures IdErased(id, old(ids.slots[..]), old(ids.entries))
      ensures safe ==> Valid() && ids.Safe(more)
    {
      hide Core, LevelOK, AllReachable, Holds, HasEmpty, Threaded, BookRep.Abs, Edge, Counted, Dropped,
        NaiveBook.Cancel, SafeEdits, Finds, EraseSafe, ErasedFrom;
      ghost var r := R();
      ghost var k := IndexFacts(cfg, r, id);
      ghost var o := slab.storage[n].order;
      Located(cfg, r, id);
      Release(n, id, k, more, safe);
      DropKeeps(cfg, r, R(), o.side, o.levelIdx, k);
      CancelIs(BookRep.Abs(r), id, o.side);
    }

    // ----- lookups, cancel and reduce ------------------------------------------------

    /** The slot of a resting order, or NULL if the id index does not find it. */
    method SlotOf(id: OrderId) returns (n: int)
      requires Sane()
      requires id != INVALID_ORDER_ID
      ensures Kept()
      ensures n == NULL <==> !ids.Findable(id)
      ensures n != NULL ==> 0 <= n < slab.storage.Length && slab.storage[n].Live? && id in index && index[id] == n
      ensures n != NULL ==> var o := slab.storage[n].order;
        o.id == id && o.qty > 0 && Lookup(Abs(), id) == Some((o.side, Resting(id, o.price, o.qty)))
      ensures id !in ids.entries ==> Lookup(Abs(), id).None?
      ensures Valid() ==> (n == NULL <==> Lookup(Abs(), id).None?)
    {
      hide Core, AllReachable, Holds, HasEmpty, Threaded, BookRep.Abs, Edge, Counted, SafeEdits, Finds, Lookup;
      n := ids.Find(id);
      Located(cfg, R(), id);
      IndexRange(cfg, R());
      if n != NULL { ghost var k := IndexFacts(cfg, R(), id); }
    }

    /** On a valid engine always right. On one whose index has lost sight of id, false and no change. */
    method Cancel(id: OrderId, ghost more: seq<Edit> := [], ghost safe: bool := false) returns (ok: bool)
      requires Sane()
      requires id != INVALID_ORDER_ID
      requires safe ==> Valid() && ids.Safe(CancelEdits(Abs(), id) + more)
      modifies Repr()
      ensures Sane()
      ensures ok == old(ids.Findable(id))
      ensures (Abs(), ok) == if old(ids.Findable(id)) then NaiveBook.Cancel(old(Abs()), id) else (old(Abs()), false)
      ensures old(Valid()) ==> (Abs(), ok) == NaiveBook.Cancel(old(Abs()), id)
      ensures IdErased(id, old(ids.slots[..]), old(ids.entries))
      ensures safe ==> Valid() && ids.Safe(more)
    {
      hide Kept, AllReachable, Holds, SafeEdits, Finds, EraseSafe, ErasedFrom, Lookup, NaiveBook.Cancel;
      CancelByLookup(Abs(), id);
      Regroup([], [], more);
      var n := SlotOf(id);
      if n == NULL { return false; }
      RemoveOrder(n, id, more, safe);
      ok := true;
    }

    /** Lowers an order's quantity in place, and its level's total by the difference. */
    method ShrinkOrder(n: nat, qty: Quantity)
      requires Lists()
      requires n < slab.storage.Length && slab.storage[n].Live? && 0 < qty <= slab.storage[n].order.qty
      modifies slab.storage, bidLevels, askLevels
      ensures Lists()
      ensures R() == Shrunk(old(R()), n, qty)
      ensures var o := old(slab.storage[n].order);
        Abs() == old(Abs()).With(o.side, Resize(old(Abs()).On(o.side), o.id, qty))
    {
      hide Core, AllReachable, Holds, HasEmpty, Threaded, BookRep.Abs, Edge, Counted;
      ghost var r := R();
      ShrinkFacts(cfg, r, n);
      ShrinkCore(cfg, r, n, qty);
      ShrinkKeeps(cfg, r, n, qty);
      ShrunkKeepsCount(r, n, qty);
      ShrunkThreaded(r, n, qty, slab.freeHead);
      var o := slab.storage[n].order;
      slab.storage[n] := Live(o.(qty := qty));
      if o.side.Buy? {
        bidLevels[o.levelIdx] := Lowered(bidLevels[o.levelIdx], o.qty - qty);
      } else {
        askLevels[o.levelIdx] := Lowered(askLevels[o.levelIdx], o.qty - qty);
      }
      assert R() == Shrunk(r, n, qty);
    }

    /** An order shrinks in place, as reduce and modify have it; the id index does not notice. */
    method ShrinkResting(n: nat, id: OrderId, qty: Quantity)
      requires Sane()
      requires n < slab.storage.Length && slab.storage[n].Live? && slab.storage[n].order.id == id
      requires 0 < qty <= slab.storage[n].order.qty
      modifies slab.storage, bidLevels, askLevels
      ensures Sane() && index == old(index)
      ensures var s := old(slab.storage[n].order.side);
        Abs() == old(Abs()).With(s, Resize(old(Abs()).On(s), id, qty))
    {
      hide Core, AllReachable, Holds, HasEmpty, Threaded, BookRep.Abs, Edge, Counted;
      ShrinkOrder(n, qty);
    }

    /** As right as cancel: always on a valid engine. */
    method Reduce(id: OrderId, amount: Quantity, ghost more: seq<Edit> := [], ghost safe: bool := false)
      returns (ok: bool)
      requires Sane()
      requires id != INVALID_ORDER_ID
      requires safe ==> Valid() && ids.Safe(ReduceEdits(Abs(), id, amount) + more)
      modifies Repr()
      ensures Sane()
      ensures ok == old(ids.Findable(id))
      ensures (Abs(), ok) ==
        if old(ids.Findable(id)) then NaiveBook.Reduce(old(Abs()), id, amount) else (old(Abs()), false)
      ensures old(Valid()) ==> (Abs(), ok) == NaiveBook.Reduce(old(Abs()), id, amount)
      ensures if ReduceEdits(old(Abs()), id, amount) == [] then ids.slots[..] == old(ids.slots[..])
        else IdErased(id, old(ids.slots[..]), old(ids.entries))
      ensures safe ==> Valid() && ids.Safe(more)
    {
      hide Kept, AllReachable, Holds, SafeEdits, Finds, EraseSafe, ErasedFrom, Lookup, NaiveBook.Cancel, Resize,
        NaiveBook.Reduce, ReduceEdits;
      ReduceByLookup(Abs(), id, amount);
      Regroup([], [], more);
      var n := SlotOf(id);
      if n == NULL { return false; }
      var o := slab.storage[n].order;
      if amount >= o.qty {
        RemoveOrder(n, id, more, safe);
      } else {
        ShrinkResting(n, id, o.qty - amount);
      }
      ok := true;
    }

    // ----- resting an order ---------------------------------------------------------

    /** The slot, list, total and count part of insert_resting_, on one level array. */
    method JoinLevel(levels: array<Level>, l: nat, o: Order, ghost nodes: seq<nat>) returns (p: nat)
      requires slab.Valid() && slab.free != []
      requires l < levels.Length && LevelOK(slab.storage[..], levels[l], nodes) && levels[l].count + 1 < TWO_TO_THE_32
      requires slab.free[0] !in nodes
      modifies slab, slab.storage, levels
      ensures slab.Valid()
      ensures p == old(slab.free)[0] < slab.storage.Length && slab.free == old(slab.free)[1..]
      ensures slab.inUse == old(slab.inUse) + 1
      ensures Apart(old(slab.storage[..]), slab.storage[..], p, nodes) && SameButLinks(Live(o), slab.storage[p])
      ensures levels[..] == old(levels[..])[l := levels[l]]
      ensures LevelGained(slab.storage[..], old(levels[l]), levels[l], nodes + [p], o.qty)
    {
      hide LevelOK, Threaded, ListAt;
      ghost var store := slab.storage[..];
      FirstFree(store, slab.freeHead, slab.free);
      p := slab.Allocate();
      FreshSlotFrame(store, slab.freeHead, slab.free, p, Live(o), levels[l], nodes);
      slab.storage[p] := Live(o);
      assert slab.storage[..] == store[p := Live(o)];
      LevelList(slab.storage[..], levels[l], nodes);
      Append(slab.storage, levels, l, p, nodes);
      ThreadedFrame(store[p := Live(o)], slab.storage[..], slab.freeHead, slab.free, nodes + [p]);
      ApartAfter(store, slab.storage[..], p, o, nodes);
    }

    method BidJoined(l: nat, wasEmpty: bool, ghost was: seq<seq<nat>>, ghost nodes: seq<nat>)
      requires bidBits.Valid() && l < |was| <= 64 * bidBits.words.Length
      requires Edge(Buy, was, bidBits.Members(), bestBid) && wasEmpty == (was[l] == [])
      requires nodes != [] && bidQ == was[l := nodes]
      modifies bidBits.words, this`bestBid
      ensures Edge(Buy, bidQ, bidBits.Members(), bestBid)
    {
      if wasEmpty {
        bidBits.Set(l);
        if bestBid == NO_BEST || l > bestBid { bestBid := l; }
      }
    }

    method AskJoined(l: nat, wasEmpty: bool, ghost was: seq<seq<nat>>, ghost nodes: seq<nat>)
      requires askBits.Valid() && l < |was| <= 64 * askBits.words.Length
      requires Edge(Sell, was, askBits.Members(), bestAsk) && wasEmpty == (was[l] == [])
      requires nodes != [] && askQ == was[l := nodes]
      modifies askBits.words, this`bestAsk
      ensures Edge(Sell, askQ, askBits.Members(), bestAsk)
    {
      if wasEmpty {
        askBits.Set(l);
        if bestAsk == NO_BEST || l < bestAsk { bestAsk := l; }
      }
    }

    /** insert_resting_ for a bid, short of the id index. */
    method JoinBids(o: Order) returns (p: nat)
      requires Separate() && slab.Valid() && slab.free != [] && Edge(Buy, bidQ, bidBits.Members(), bestBid)
      requires |bidQ| == cfg.numLevels && o.levelIdx < cfg.numLevels && o.side == Buy
      requires LevelOK(slab.storage[..], bidLevels[o.levelIdx], bidQ[o.levelIdx])
      requires bidLevels[o.levelIdx].count + 1 < TWO_TO_THE_32 && slab.free[0] !in bidQ[o.levelIdx]
      modifies slab, slab.storage, bidLevels, bidBits.words, this`bidQ, this`bestBid
      ensures slab.Valid() && Edge(Buy, bidQ, bidBits.Members(), bestBid)
      ensures slab.inUse == old(slab.inUse) + 1
      ensures p == old(slab.free)[0] < slab.storage.Length
      ensures Added(old(R()), R().(index := R().index[o.id := p]), Buy, o.levelIdx, o)
    {
      hide Threaded, LevelOK, Apart, LevelGained, Edge, Added;
      ghost var r, l := R(), o.levelIdx;
      LevelCount(slab.storage[..], bidLevels[l], bidQ[l]);
      var wasEmpty := bidLevels[o.levelIdx].count == 0;
      p := JoinLevel(bidLevels, o.levelIdx, o, bidQ[l]);
      bidQ := bidQ[l := bidQ[l] + [p]];
      BidJoined(o.levelIdx, wasEmpty, r.bidQ, bidQ[l]);
      JoinedIsAdded(r, Buy, l, o, p, slab.storage[..], bidLevels[..]);
    }

    /** insert_resting_ for an ask, short of the id index. */
    method JoinAsks(o: Order) returns (p: nat)
      requires Separate() && slab.Valid() && slab.free != [] && Edge(Sell, askQ, askBits.Members(), bestAsk)
      requires |askQ| == cfg.numLevels && o.levelIdx < cfg.numLevels && o.side == Sell
      requires LevelOK(slab.storage[..], askLevels[o.levelIdx], askQ[o.levelIdx])
      requires askLevels[o.levelIdx].count + 1 < TWO_TO_THE_32 && slab.free[0] !in askQ[o.levelIdx]
      modifies slab, slab.storage, askLevels, askBits.words, this`askQ, this`bestAsk
      ensures slab.Valid() && Edge(Sell, askQ, askBits.Members(), bestAsk)
      ensures slab.inUse == old(slab.inUse) + 1
      ensures p == old(slab.free)[0] < slab.storage.Length
      ensures Added(old(R()), R().(index := R().index[o.id := p]), Sell, o.levelIdx, o)
    {
      hide Threaded, LevelOK, Apart, LevelGained, Edge, Added;
      ghost var r, l := R(), o.levelIdx;
      LevelCount(slab.storage[..], askLevels[l], askQ[l]);
      var wasEmpty := askLevels[o.levelIdx].count == 0;
      p := JoinLevel(askLevels, o.levelIdx, o, askQ[l]);
      askQ := askQ[l := askQ[l] + [p]];
      AskJoined(o.levelIdx, wasEmpty, r.askQ, askQ[l]);
      JoinedIsAdded(r, Sell, l, o, p, slab.storage[..], askLevels[..]);
    }

    method JoinSide(o: Order) returns (p: nat)
      requires Separate() && slab.Valid() && slab.free != [] && Edges()
      requires |bidQ| == |askQ| == cfg.numLevels && o.levelIdx < cfg.numLevels
      requires LevelOK(R().store, R().Levels(o.side)[o.levelIdx], R().Queues(o.side)[o.levelIdx])
      requires R().Levels(o.side)[o.levelIdx].count + 1 < TWO_TO_THE_32
      requires slab.free[0] !in R().Queues(o.side)[o.levelIdx]
      modifies slab, slab.storage, bidLevels, askLevels, bidBits.words, askBits.words
      modifies this`bidQ, this`askQ, this`bestBid, this`bestAsk
      ensures slab.Valid() && Edges()
      ensures slab.inUse == old(slab.inUse) + 1
      ensures p == old(slab.free)[0] < slab.storage.Length
      ensures Added(old(R()), R().(index := R().index[o.id := p]), o.side, o.levelIdx, o)
    {
      hide Threaded, LevelOK, Edge, Added;
      if o.side.Buy? { p := JoinBids(o); } else { p := JoinAsks(o); }
    }

    /** The id has just been put into an index that was `was`. */
    ghost predicate IdAdded(was: Table, id: OrderId)
      reads ids, ids.slots
    {
      exists v :: InsertedInto(ids.hash, was, id, v, ids.slots[..])
    }

    /** The id index learns where an order is. */
    method Remember(id: OrderId, p: nat, ghost more: seq<Edit>, ghost safe: bool)
      requires ids.slots.Length >= 2 && ids.slots.Length >= 2 * cfg.maxOrders
      requires ids.Usable() && CanTake(id) && id != INVALID_ORDER_ID && |index| < cfg.maxOrders
      requires safe ==> Follows([Came(id)] + more)
      modifies ids, ids.slots, this`index
      ensures ids.Usable() && index == old(index)[id := p]
      ensures IdAdded(old(ids.slots[..]), id)
      ensures safe ==> Follows(more)
    {
      hide AllReachable, Holds, HasEmpty, SafeEdits, InsertedInto;
      var _ := ids.Insert(id, p, more);
      index := index[id := p];
    }

    /** The order stands in its level; only the id index does not know of it yet. */
    method PlaceOrder(o: Order) returns (p: nat)
      requires Kept() && OrderOK(cfg, o) && o.id !in index && Abs().Size() < cfg.maxOrders
      modifies slab, slab.storage, bidLevels, askLevels, bidBits.words, askBits.words
      modifies this`bidQ, this`askQ, this`bestBid, this`bestAsk
      ensures slab.Valid() && Edges() && slab.inUse == |index| + 1 <= cfg.maxOrders
      ensures var r := R().(index := index[o.id := p]);
        && Core(cfg, r) && Counted(r)
        && BookRep.Abs(r) ==
          old(Abs()).With(o.side, Insert(o.side, old(Abs()).On(o.side), Resting(o.id, o.price, o.qty)))
    {
      hide Core, Threaded, BookRep.Abs, Edge, Counted, LevelOK, Insert, Added;
      ghost var r := R();
      RoomFor(cfg, r, o.side, o.levelIdx, slab.freeHead);
      p := JoinSide(o);
      AddKeeps(cfg, r, R().(index := index[o.id := p]), o.side, o.levelIdx, o);
    }

    method InsertResting(id: OrderId, side: Side, price: Price, qty: Quantity, ghost more: seq<Edit>, ghost safe: bool)
      requires Kept() && CanTake(id)
      requires id != INVALID_ORDER_ID && id !in index && qty > 0 && cfg.InRange(price)
      requires Abs().Size() < cfg.maxOrders
      requires safe ==> Follows([Came(id)] + more)
      modifies Repr()
      ensures Kept()
      ensures Abs() == old(Abs()).With(side, Insert(side, old(Abs()).On(side), Resting(id, price, qty)))
      ensures IdAdded(old(ids.slots[..]), id)
      ensures safe ==> Follows(more)
    {
      hide Core, AllReachable, Holds, HasEmpty, Threaded, BookRep.Abs, Edge, Counted, Insert, IdAdded, Follows, CanTake;
      var p := PlaceOrder(Order(NULL, NULL, id, qty, price, price - cfg.basePrice, side));
      Remember(id, p, more, safe);
    }

    // ----- matching -------------------------------------------------------------------

    /** The book-keeping of one fill on its level: quantity, total, and unlinking when it empties the order. */
    method FillOnLevel(levels: array<Level>, l: nat, n: nat, fill: Quantity, ghost nodes: seq<nat>) returns (gone: bool)
      requires slab.Valid()
      requires l < levels.Length && LevelOK(slab.storage[..], levels[l], nodes) && nodes != [] && nodes[0] == n
      requires n < slab.storage.Length && slab.storage[n].Live? && 0 < fill <= slab.storage[n].order.qty
      modifies slab.storage, levels
      ensures slab.Valid()
      ensures gone == (fill == old(slab.storage[n].order.qty))
      ensures !gone ==> var o := old(slab.storage[n].order);
        && slab.storage[..] == old(slab.storage[..])[n := Live(o.(qty := o.qty - fill))]
        && levels[..] == old(levels[..])[l := Lowered(old(levels[l]), fill)]
      ensures gone ==>
        && Apart(old(slab.storage[..]), slab.storage[..], n, nodes)
        && slab.storage[n].Live? && slab.storage[n].order.id == old(slab.storage[n].order.id)
        && levels[..] == old(levels[..])[l := levels[l]]
        && LevelLost(slab.storage[..], old(levels[l]), levels[l], Without(nodes, 0), fill)
    {
      hide Threaded, Lowered;
      var o := slab.storage[n].order;
      ghost var store, was := slab.storage[..], levels[..];
      slab.storage[n] := Live(o.(qty := o.qty - fill));
      levels[l] := Lowered(levels[l], fill);
      assert slab.storage[..] == store[n := Live(o.(qty := o.qty - fill))];
      assert levels[..] == was[l := Lowered(was[l], fill)];
      QtyThreaded(store, slab.freeHead, slab.free, n, o.qty - fill);
      gone := slab.storage[n].order.qty == 0;
      LoweredKeeps(was[l], fill);
      if gone {
        LevelCount(store, was[l], nodes);
        QtyList(store, was[l].head, was[l].tail, nodes, n, o.qty - fill);
        ghost var mid := slab.storage[..];
        Unlink(slab.storage, levels, l, n, nodes, 0);
        ThreadedFrame(mid, slab.storage[..], slab.freeHead, slab.free, nodes);
        levels[l] := levels[l].(count := levels[l].count - 1);
        assert levels[..] == was[l := levels[l]];
        ApartAfterQty(store, mid, slab.storage[..], n, nodes);
      }
    }

    /** The id index loses an order, if it finds it. */
    method EraseId(id: OrderId, ghost more: seq<Edit>, ghost safe: bool)
      requires ids.Usable() && id != INVALID_ORDER_ID && id in index
      requires safe ==> Follows([Gone(id)] + more)
      modifies ids, ids.slots, this`index
      ensures ids.Usable() && index == old(index) - {id}
      ensures IdErased(id, old(ids.slots[..]), old(ids.entries))
      ensures safe ==> Follows(more)
    {
      hide AllReachable, Holds, HasEmpty, SafeEdits, Finds, EraseSafe, ErasedFrom;
      var _ := ids.Remove(id, more);
      index := index - {id};
    }

    /** Takes an order that is off its level out of the id index and gives its slot back. */
    method Forget(n: nat, id: OrderId, ghost r: Rep, ghost s: Side, ghost l: nat, ghost k: nat, ghost more: seq<Edit>,
                  ghost safe: bool)
      requires Separate() && slab.Valid() && ids.Usable() && |index| == slab.inUse
      requires l < |r.Queues(s)| == |r.Levels(s)| && k < |r.Queues(s)[l]| && r.Queues(s)[l][k] == n
      requires LevelOK(r.store, r.Levels(s)[l], r.Queues(s)[l])
      requires n < |r.store| && r.store[n].Live? && r.store[n].order.id == id && Unlinked(r, R(), s, l, k)
      requires n < slab.storage.Length && n !in slab.free && id != INVALID_ORDER_ID && id in index
      requires safe ==> Follows([Gone(id)] + more)
      modifies slab, slab.storage, ids, ids.slots, this`index
      ensures slab.Valid() && ids.Usable() && |index| == slab.inUse
      ensures Dropped(r, R(), s, l, k)
      ensures IdErased(id, old(ids.slots[..]), old(ids.entries))
      ensures index == old(index) - {id}
      ensures safe ==> Follows(more)
    {
      hide LevelOK, AllReachable, Holds, HasEmpty, Threaded, Unlinked, Dropped, IdErased, Follows;
      ghost var r1 := R();
      UnlinkedFacts(r, r1, s, l, k);
      assert |index - {id}| == |index| - 1;
      EraseId(id, more, safe);
      slab.Deallocate(n);
      UnlinkedThenFreed(r, r1, R(), s, l, k);
    }

    /** The body of the inner matching loop: one fill against the head of level l, fully removing a
        head that empties. */
    method FillHead(s: Side, l: nat, n: nat, fill: Quantity, ghost taker: OrderId, ghost more: seq<Edit>,
                    ghost safe: bool)
      requires Separate() && slab.Valid() && ids.Usable() && |index| == slab.inUse && CanTake(taker)
      requires |bidQ| == |askQ| == cfg.numLevels && l < cfg.numLevels
      requires LevelOK(R().store, R().Levels(s)[l], R().Queues(s)[l])
      requires R().Queues(s)[l] != [] && R().Queues(s)[l][0] == n
      requires n < slab.storage.Length && slab.storage[n].Live? && n !in slab.free
      requires var o := slab.storage[n].order;
        && o.side == s && o.levelIdx == l && 0 < fill <= o.qty
        && o.id != INVALID_ORDER_ID && o.id in index
        && (safe ==> Follows(if fill < o.qty then more else [Gone(o.id)] + more))
      modifies slab, slab.storage, ids, ids.slots, bidLevels, askLevels, this`bidQ, this`askQ, this`index
      ensures slab.Valid() && ids.Usable() && |index| == slab.inUse && CanTake(taker)
      ensures HeadFilled(old(R()), R(), s, l, n, fill)
      ensures safe ==> Follows(more)
    {
      hide LevelOK, Threaded, Apart, LevelLost, Lowered, AllReachable, Holds, HasEmpty, Dropped, Finds, CanTake,
        IdErased, Follows, HeadFilled, Unlinked;
      ghost var r := R();
      ghost var nodes := r.Queues(s)[l];
      var o := slab.storage[n].order;
      var gone := FillOnLevel(Levels(s), l, n, fill, nodes);
      if gone {
        if s.Buy? { bidQ := bidQ[l := Without(nodes, 0)]; } else { askQ := askQ[l := Without(nodes, 0)]; }
        ghost var was, held := ids.slots[..], ids.entries;
        LeftIsUnlinked(r, s, l, 0, slab.storage[..], Levels(s)[..]);
        RoomOnceGone(taker, o.id);
        Forget(n, o.id, r, s, l, 0, more, safe);
        LetsIn(taker, o.id, was, held);
        HeadGoes(r, R(), s, l, n, fill);
      } else {
        HeadStays(r, R(), s, l, n, fill);
      }
    }

    /** Once id is gone there is room in the id index for what it can take. */
    lemma RoomOnceGone(taker: OrderId, id: OrderId)
      requires CanTake(taker) && |index| <= cfg.maxOrders && id in index
      ensures taker !in ids.entries
      ensures |ids.entries| < cfg.maxOrders || (|ids.entries| <= cfg.maxOrders && ids.Findable(id))
    {
      hide Finds;
      if ids.Valid() && id in ids.entries { StoredIsFound(id); }
    }

    lemma LetsIn(taker: OrderId, id: OrderId, was: Table, held: map<OrderId, int>)
      requires IdErased(id, was, held) && (taker !in held || (taker == id && Finds(ids.hash, was, id)))
      requires |held| < cfg.maxOrders || (|held| <= cfg.maxOrders && Finds(ids.hash, was, id))
      ensures CanTake(taker)
    {
      hide Finds, ErasedFrom, AllReachable, EraseSafe;
      assert id in held ==> |held - {id}| == |held| - 1;
    }

    lemma StoredIsFound(id: OrderId)
      requires ids.Valid() && id in ids.entries
      ensures ids.Findable(id)
    {
      assert Reachable(ids.hash, ids.slots[..], ids.places[id]);
    }

    /** One fill, seen from the abstract book: the front order of the opposite queue shrinks or goes. */
    method FillOne(a: Aggressor, l: nat, qty: Quantity, ghost more: seq<Edit>, ghost safe: bool)
      returns (remaining: Quantity, trade: Trade)
      requires Lists() && CanTake(a.id)
      requires l < cfg.numLevels && R().Queues(a.side.Opposite())[l] != [] && qty > 0
      requires NodesBefore(a.side.Opposite(), R().Queues(a.side.Opposite()), l) == []
      requires Abs().On(a.side.Opposite()) != []
      requires safe ==> Follows(FrontEdits(Abs().On(a.side.Opposite()), qty) + more)
      modifies slab, slab.storage, ids, ids.slots, bidLevels, askLevels, this`bidQ, this`askQ, this`index
      ensures Lists() && CanTake(a.id)
      ensures safe ==> Follows(more)
      ensures var s := a.side.Opposite();
        && OnlyLevel(old(R()), R(), s, l)
        && Abs().On(a.side) == old(Abs()).On(a.side)
        && old(Abs()).On(s) != [] && old(Abs()).On(s)[0].price == cfg.basePrice + l
        && FilledFront(a, old(Abs()).On(s), qty, Abs().On(s), remaining, trade)
      ensures remaining < qty
    {
      hide Core, LevelOK, Threaded, AllReachable, Holds, HasEmpty, BookRep.Abs, Counted, FilledFront, HeadFilled,
        Follows, CanTake, NodesBefore, OnlyLevel;
      var s := a.side.Opposite();
      ghost var r := R();
      HeadFacts(cfg, r, s, l);
      var n := Levels(s)[l].head;
      var o := slab.storage[n].order;
      var fill := Min(qty, o.qty);
      trade := Trade(o.id, a.id, cfg.basePrice + l, fill, a.ts, a.side);
      Regroup([], [], more);
      FillHead(s, l, n, fill, a.id, more, safe);
      remaining := qty - fill;
      HeadFilledIs(cfg, r, R(), a, l, n, qty, trade);
    }

    /** The inner loop of match_: fill against level l until it or the aggressor is exhausted. */
    method FillLevel(a: Aggressor, l: nat, qty: Quantity, ghost bound: Bound, ghost more: seq<Edit>,
                     ghost safe: bool)
      returns (remaining: Quantity, trades: seq<Trade>)
      requires Lists() && CanTake(a.id)
      requires l < cfg.numLevels && R().Queues(a.side.Opposite())[l] != [] && qty > 0
      requires NodesBefore(a.side.Opposite(), R().Queues(a.side.Opposite()), l) == []
      requires Abs().On(a.side.Opposite()) != [] && Reaches(a.side, bound, Abs().On(a.side.Opposite())[0].price)
      requires safe ==> Follows(Emptied(a, Abs().On(a.side.Opposite()), bound, qty) + more)
      modifies slab, slab.storage, ids, ids.slots, bidLevels, askLevels, this`bidQ, this`askQ, this`index
      ensures Lists() && CanTake(a.id)
      ensures safe ==> Follows(Emptied(a, Abs().On(a.side.Opposite()), bound, remaining) + more)
      ensures var s := a.side.Opposite();
        && OnlyLevel(old(R()), R(), s, l)
        && Abs().On(a.side) == old(Abs()).On(a.side)
        && Continues(a, old(Abs()).On(s), bound, qty, Abs().On(s), remaining, trades)
        && (remaining > 0 ==> R().Queues(s)[l] == [])
      ensures remaining < qty
    {
      hide Lists, BookRep.Abs, FilledFront, Match, NodesBefore, Continues, Reaches, OnlyLevel, Follows, CanTake,
        Emptied, FrontEdits, FrontRest;
      var s := a.side.Opposite();
      ghost var r := R();
      ghost var os := Abs().On(s);
      remaining, trades := qty, [];
      ContinuesStart(a, os, bound, qty);
      HeadIs(s, l);
      OnlyLevelStart(r, s, l);
      while remaining > 0 && Levels(s)[l].head != NULL
        invariant Lists() && CanTake(a.id) && |R().Queues(s)| == cfg.numLevels && OnlyLevel(r, R(), s, l)
        invariant NodesBefore(s, R().Queues(s), l) == []
        invariant Levels(s)[l].head == NULL <==> R().Queues(s)[l] == []
        invariant Abs().On(a.side) == old(Abs()).On(a.side)
        invariant Continues(a, os, bound, qty, Abs().On(s), remaining, trades)
        invariant remaining <= qty
        invariant safe ==> Follows(Emptied(a, Abs().On(s), bound, remaining) + more)
        invariant remaining == qty ==> R().Queues(s)[l] != []
        decreases remaining
      {
        ghost var before, mid, had := Abs().On(s), R(), remaining;
        var t;
        HeadIs(s, l);
        ghost var later := Emptied(a, FrontRest(before, had), bound, had - Min(had, before[0].qty));
        EmptiedFront(a, before, bound, had);
        Regroup(FrontEdits(before, had), later, more);
        remaining, t := FillOne(a, l, remaining, later + more, safe);
        FilledIs(a, before, had, Abs().On(s), remaining, t);
        OnlyLevelStep(r, mid, R(), s, l);
        HeadIs(s, l);
        ContinuesStep(a, os, bound, qty, before, had, trades, Abs().On(s), remaining, t);
        trades := trades + [t];
      }
    }

    /** The list head of a level all of whose betters are empty is the front of its side. */
    lemma HeadIs(s: Side, l: nat)
      requires Lists() && l < cfg.numLevels
      ensures |R().Queues(s)| == Levels(s).Length == cfg.numLevels
      ensures Levels(s)[l].head == NULL <==> R().Queues(s)[l] == []
      ensures R().Queues(s)[l] != [] && NodesBefore(s, R().Queues(s), l) == [] ==>
        Abs().On(s) != [] && Abs().On(s)[0].price == cfg.basePrice + l
    {
      hide Core, Counted, Threaded, BookRep.Abs, NodesBefore, LevelOK;
      HeadNull(cfg, R(), s, l);
      if R().Queues(s)[l] != [] && NodesBefore(s, R().Queues(s), l) == [] { HeadFacts(cfg, R(), s, l); }
    }

    /** The cached best level of a side is where its front order stands. */
    lemma BestIs(s: Side)
      requires Kept()
      ensures var best, os := if s.Buy? then bestBid else bestAsk, Abs().On(s);
        (best == NO_BEST <==> os == []) && (best != NO_BEST ==> os[0].price == cfg.basePrice + best)
    {
      hide Core, Counted, Edge, Threaded, BookRep.Abs, NodesBefore;
      if s.Buy? {
        BestFacts(cfg, R(), Buy, bidBits.Members(), bestBid);
      } else {
        BestFacts(cfg, R(), Sell, askBits.Members(), bestAsk);
      }
    }

    /** The end of a round of the outer matching loop: an emptied level hands over to the next best. */
    method AfterAsks(i: nat, ghost was: seq<seq<nat>>) returns (emptied: bool)
      requires Lists() && Edge(Buy, bidQ, bidBits.Members(), bestBid)
      requires i < |was| == cfg.numLevels == |askQ| && was[i] != [] && askQ == was[i := askQ[i]]
      requires Edge(Sell, was, askBits.Members(), bestAsk)
      modifies askBits.words, this`bestAsk
      ensures Kept() && R() == old(R())
      ensures emptied == (askQ[i] == [])
    {
      hide Core, LevelOK, Threaded, AllReachable, Holds, HasEmpty, BookRep.Abs, Counted, Edge;
      CountZero(cfg, R(), Sell, i);
      emptied := askLevels[i].count == 0;
      if emptied {
        AskEmptied(i, was);
      } else {
        EdgeKept(Sell, was, i, askBits.Members(), bestAsk, askQ[i]);
      }
    }

    /** One round of the outer matching loop: trade with the best ask level, then see what is best. */
    method FillBestAsk(a: Aggressor, qty: Quantity, ghost bound: Bound, ghost more: seq<Edit>, ghost safe: bool)
      returns (remaining: Quantity, trades: seq<Trade>, emptied: bool)
      requires Kept() && CanTake(a.id) && a.side == Buy && qty > 0
      requires Abs().asks != [] && Reaches(Buy, bound, Abs().asks[0].price)
      requires safe ==> Follows(Emptied(a, Abs().asks, bound, qty) + more)
      modifies Repr()
      ensures Kept() && CanTake(a.id)
      ensures safe ==> Follows(Emptied(a, Abs().asks, bound, remaining) + more)
      ensures Abs().bids == old(Abs()).bids
      ensures Continues(a, old(Abs()).asks, bound, qty, Abs().asks, remaining, trades)
      ensures remaining < qty && (remaining > 0 ==> emptied)
    {
      hide Core, LevelOK, Threaded, AllReachable, Holds, HasEmpty, BookRep.Abs, Counted, Match, NodesBefore,
          Continues, Edge, Reaches, Follows, CanTake, Emptied;
      BestFacts(cfg, R(), Sell, askBits.Members(), bestAsk);
      ghost var was := askQ;
      var i := bestAsk;
      remaining, trades := FillLevel(a, i, qty, bound, more, safe);
      emptied := AfterAsks(i, was);
    }

    /** match_<Side::Buy>: walk the asks upwards. */
    method MatchBuy(limit: nat, qty: Quantity, a: Aggressor, ghost bound: Bound, ghost more: seq<Edit>,
                    ghost safe: bool)
      returns (remaining: Quantity, trades: seq<Trade>)
      requires Kept() && CanTake(a.id)
      requires a.side == Buy && LimitIs(cfg, limit, bound)
      requires safe ==> Follows(Emptied(a, Abs().asks, bound, qty) + more)
      modifies Repr()
      ensures Kept() && CanTake(a.id)
      ensures safe ==> Follows(more)
      ensures Abs() == old(Abs()).With(Sell, Match(a, old(Abs()).asks, bound, qty).rest)
      ensures remaining == Match(a, old(Abs()).asks, bound, qty).remaining
      ensures trades == Match(a, old(Abs()).asks, bound, qty).trades
    {
      hide Kept, BookRep.Abs, Match, Continues, Reaches, Follows, CanTake, Emptied;
      ghost var os := Abs().asks;
      remaining, trades := qty, [];
      ContinuesStart(a, os, bound, qty);
      BestIs(Sell);
      while bestAsk != NO_BEST && remaining > 0
        invariant Kept() && CanTake(a.id)
        invariant Abs().bids == old(Abs()).bids
        invariant Continues(a, os, bound, qty, Abs().asks, remaining, trades)
        invariant safe ==> Follows(Emptied(a, Abs().asks, bound, remaining) + more)
        invariant bestAsk == NO_BEST <==> Abs().asks == []
        invariant bestAsk != NO_BEST ==> Abs().asks[0].price == cfg.basePrice + bestAsk
        decreases remaining
      {
        LimitReaches(cfg, Buy, limit, bound, bestAsk, Abs().asks[0].price);
        if limit != NO_BEST && bestAsk > limit { break; }
        ghost var before, had, sofar := Abs().asks, remaining, trades;
        var ts, emptied;
        remaining, ts, emptied := FillBestAsk(a, remaining, bound, more, safe);
        trades := trades + ts;
        ContinuesTrans(a, os, bound, qty, before, had, sofar, Abs().asks, remaining, ts);
        BestIs(Sell);
        if !emptied { break; }
      }
      ContinuesEnd(a, os, bound, qty, Abs().asks, remaining, trades);
      EmptiedEnd(a, Abs().asks, bound, remaining, more);
    }

    method AfterBids(i: nat, ghost was: seq<seq<nat>>) returns (emptied: bool)
      requires Lists() && Edge(Sell, askQ, askBits.Members(), bestAsk)
      requires i < |was| == cfg.numLevels == |bidQ| && was[i] != [] && bidQ == was[i := bidQ[i]]
      requires Edge(Buy, was, bidBits.Members(), bestBid)
      modifies bidBits.words, this`bestBid
      ensures Kept() && R() == old(R())
      ensures emptied == (bidQ[i] == [])
    {
      hide Core, LevelOK, Threaded, AllReachable, Holds, HasEmpty, BookRep.Abs, Counted, Edge;
      CountZero(cfg, R(), Buy, i);
      emptied := bidLevels[i].count == 0;
      if emptied {
        BidEmptied(i, was);
      } else {
        EdgeKept(Buy, was, i, bidBits.Members(), bestBid, bidQ[i]);
      }
    }

    /** One round of the outer matching loop: trade with the best bid level, then see what is best. */
    method FillBestBid(a: Aggressor, qty: Quantity, ghost bound: Bound, ghost more: seq<Edit>, ghost safe: bool)
      returns (remaining: Quantity, trades: seq<Trade>, emptied: bool)
      requires Kept() && CanTake(a.id) && a.side == Sell && qty > 0
      requires Abs().bids != [] && Reaches(Sell, bound, Abs().bids[0].price)
      requires safe ==> Follows(Emptied(a, Abs().bids, bound, qty) + more)
      modifies Repr()
      ensures Kept() && CanTake(a.id)
      ensures safe ==> Follows(Emptied(a, Abs().bids, bound, remaining) + more)
      ensures Abs().asks == old(Abs()).asks
      ensures Continues(a, old(Abs()).bids, bound, qty, Abs().bids, remaining, trades)
      ensures remaining < qty && (remaining > 0 ==> emptied)
    {
      hide Core, LevelOK, Threaded, AllReachable, Holds, HasEmpty, BookRep.Abs, Counted, Match, NodesBefore,
          Continues, Edge, Reaches, Follows, CanTake, Emptied;
      BestFacts(cfg, R(), Buy, bidBits.Members(), bestBid);
      ghost var was := bidQ;
      var i := bestBid;
      remaining, trades := FillLevel(a, i, qty, bound, more, safe);
      emptied := AfterBids(i, was);
    }

    /** match_<Side::Sell>: walk the bids downwards. */
    method MatchSell(limit: nat, qty: Quantity, a: Aggressor, ghost bound: Bound, ghost more: seq<Edit>,
                    ghost safe: bool)
      returns (remaining: Quantity, trades: seq<Trade>)
      requires Kept() && CanTake(a.id)
      requires a.side == Sell && LimitIs(cfg, limit, bound)
      requires safe ==> Follows(Emptied(a, Abs().bids, bound, qty) + more)
      modifies Repr()
      ensures Kept() && CanTake(a.id)
      ensures safe ==> Follows(more)
      ensures Abs() == old(Abs()).With(Buy, Match(a, old(Abs()).bids, bound, qty).rest)
      ensures remaining == Match(a, old(Abs()).bids, bound, qty).remaining
      ensures trades == Match(a, old(Abs()).bids, bound, qty).trades
    {
      hide Kept, BookRep.Abs, Match, Continues, Reaches, Follows, CanTake, Emptied;
      ghost var os := Abs().bids;
      remaining, trades := qty, [];
      ContinuesStart(a, os, bound, qty);
      BestIs(Buy);
      while bestBid != NO_BEST && remaining > 0
        invariant Kept() && CanTake(a.id)
        invariant Abs().asks == old(Abs()).asks
        invariant Continues(a, os, bound, qty, Abs().bids, remaining, trades)
        invariant safe ==> Follows(Emptied(a, Abs().bids, bound, remaining) + more)
        invariant bestBid == NO_BEST <==> Abs().bids == []
        invariant bestBid != NO_BEST ==> Abs().bids[0].price == cfg.basePrice + bestBid
        decreases remaining
      {
        LimitReaches(cfg, Sell, limit, bound, bestBid, Abs().bids[0].price);
        if limit != NO_BEST && bestBid < limit { break; }
        ghost var before, had, sofar := Abs().bids, remaining, trades;
        var ts, emptied;
        remaining, ts, emptied := FillBestBid(a, remaining, bound, more, safe);
        trades := trades + ts;
        ContinuesTrans(a, os, bound, qty, before, had, sofar, Abs().bids, remaining, ts);
        BestIs(Buy);
        if !emptied { break; }
      }
      ContinuesEnd(a, os, bound, qty, Abs().bids, remaining, trades);
      EmptiedEnd(a, Abs().bids, bound, remaining, more);
    }

    // ----- queries -------------------------------------------------------------------------

    /** Where a walk over side s may stand: nowhere any more, or at an occupied level. */
    ghost predicate OnLevel(s: Side, i: nat)
      reads Repr()
    {
      i != NO_BEST ==> i < cfg.numLevels == |R().Queues(s)| && R().Queues(s)[i] != []
    }

    /** The part of a side a walk standing at level i has still to visit. */
    ghost function Beyond(s: Side, i: nat): seq<Resting>
      requires OnLevel(s, i)
      reads Repr()
    {
      if i == NO_BEST then [] else From(slab.storage[..], s, R().Queues(s), Rank(s, cfg.numLevels, i))
    }

    ghost function Past(s: Side, i: nat): seq<Resting>
      requires i != NO_BEST && OnLevel(s, i)
      reads Repr()
    {
      From(slab.storage[..], s, R().Queues(s), Rank(s, cfg.numLevels, i) + 1)
    }

    /** A walk starts at the cached best level with the whole side before it. */
    lemma WalkStart(s: Side)
      requires Kept()
      ensures var best := if s.Buy? then bestBid else bestAsk;
        OnLevel(s, best) && Beyond(s, best) == Abs().On(s)
    {
      hide Core, AllReachable, Holds, HasEmpty, Threaded, BookRep.Abs, Edge, Counted, From, NodesBefore, Flatten;
      if s.Buy? {
        BestFacts(cfg, R(), Buy, bidBits.Members(), bestBid);
        if bestBid != NO_BEST { FromBest(slab.storage[..], Buy, bidQ, bestBid); SideOf(s); }
      } else {
        BestFacts(cfg, R(), Sell, askBits.Members(), bestAsk);
        if bestAsk != NO_BEST { FromBest(slab.storage[..], Sell, askQ, bestAsk); SideOf(s); }
      }
    }

    lemma SideOf(s: Side)
      ensures Abs().On(s) == Rests(slab.storage[..], Flatten(s, R().Queues(s)))
    {
    }

    /** The next occupied level after i, best first, or NO_BEST. */
    method NextBid(i: nat) returns (j: nat)
      requires Kept() && i != NO_BEST && OnLevel(Buy, i)
      ensures OnLevel(Buy, j) && (j != NO_BEST ==> j < i) && Beyond(Buy, j) == Past(Buy, i)
    {
      hide Core, AllReachable, Holds, HasEmpty, Threaded, Counted, From;
      if i == 0 {
        j := NO_BEST;
      } else {
        j := bidBits.FindPrevSet(i - 1);
      }
      FromNext(slab.storage[..], Buy, bidQ, bidBits.Members(), bestBid, i, j);
    }

    method NextAsk(i: nat) returns (j: nat)
      requires Kept() && i != NO_BEST && OnLevel(Sell, i)
      ensures OnLevel(Sell, j) && (j != NO_BEST ==> i < j) && Beyond(Sell, j) == Past(Sell, i)
    {
      hide Core, AllReachable, Holds, HasEmpty, Threaded, Counted, From;
      j := askBits.FindNextSet(i + 1);
      FromNext(slab.storage[..], Sell, askQ, askBits.Members(), bestAsk, i, j);
    }

    /** One level of the can_fully_fill walk. */
    lemma FillStep(a: Side, i: nat, bound: Bound, qty: Quantity, acc: Quantity)
      requires Kept() && i != NO_BEST && OnLevel(a.Opposite(), i) && WithinLimit(cfg, a, i, bound)
      ensures i < Levels(a.Opposite()).Length
      ensures var sum, s := Wrap32(acc + Levels(a.Opposite())[i].total), a.Opposite();
        CanFill(a, Beyond(s, i), bound, qty, acc) == (sum >= qty || CanFill(a, Past(s, i), bound, qty, sum))
    {
      hide Core, AllReachable, Holds, HasEmpty, Threaded, Edge, Counted, CanFill, From, WithinLimit;
      var s := a.Opposite();
      LevelTotals(cfg, R(), s, i);
      SideFormed(cfg, R(), s);
      CanFillStep(cfg, slab.storage[..], a, R().Queues(s), i, Levels(s)[i], bound, qty, acc, Past(s, i));
    }

    lemma FillEnd(a: Side, i: nat, bound: Bound, qty: Quantity, acc: Quantity)
      requires Kept() && OnLevel(a.Opposite(), i) && (i != NO_BEST ==> !WithinLimit(cfg, a, i, bound))
      ensures !CanFill(a, Beyond(a.Opposite(), i), bound, qty, acc)
    {
      hide Core, AllReachable, Holds, HasEmpty, Threaded, Edge, Counted, CanFill, From, WithinLimit;
      SideFormed(cfg, R(), a.Opposite());
      CanFillEnd(cfg, slab.storage[..], a, R().Queues(a.Opposite()), i, bound, qty, acc);
    }

    /** One level of the top_n walk, after the levels already in out. */
    lemma TopStep(s: Side, i: nat, n: nat, out: seq<LevelSnapshot>)
      requires Kept() && i != NO_BEST && OnLevel(s, i) && i < Levels(s).Length && n > 0
      ensures cfg.basePrice + i < 0x8000_0000
      ensures var lvl := Levels(s)[i];
        out + NaiveBook.TopN(Beyond(s, i), n) ==
          out + [LevelSnapshot(cfg.basePrice + i, lvl.total, lvl.count)] + NaiveBook.TopN(Past(s, i), n - 1)
    {
      hide Core, AllReachable, Holds, HasEmpty, Threaded, Edge, Counted, NaiveBook.TopN, From;
      LevelTotals(cfg, R(), s, i);
      SideFormed(cfg, R(), s);
      TopNStep(cfg, slab.storage[..], s, R().Queues(s), i, Levels(s)[i], n, Past(s, i));
      TopNExtend(out, LevelSnapshot(cfg.basePrice + i, Levels(s)[i].total, Levels(s)[i].count),
          NaiveBook.TopN(Past(s, i), n - 1));
    }

    method BestBid() returns (p: Price)
      requires Kept()
      ensures p == Best(Abs().bids)
    {
      hide Core, AllReachable, Holds, HasEmpty, Threaded, BookRep.Abs, Edge, Counted;
      BestFacts(cfg, R(), Buy, bidBits.Members(), bestBid);
      p := if bestBid == NO_BEST then INVALID_PRICE else cfg.basePrice + bestBid;
    }

    method BestAsk() returns (p: Price)
      requires Kept()
      ensures p == Best(Abs().asks)
    {
      hide Core, AllReachable, Holds, HasEmpty, Threaded, BookRep.Abs, Edge, Counted;
      BestFacts(cfg, R(), Sell, askBits.Members(), bestAsk);
      p := if bestAsk == NO_BEST then INVALID_PRICE else cfg.basePrice + bestAsk;
    }

    method TotalAt(side: Side, price: Price) returns (total: Quantity)
      requires Kept()
      ensures total == Wrap32(NaiveBook.TotalAt(Abs().On(side), price))
    {
      hide Core, AllReachable, Holds, HasEmpty, Threaded, Edge, Counted, NaiveBook.TotalAt;
      if !cfg.InRange(price) {
        SideInRange(cfg, R(), side);
        TotalAtOutside(cfg, Abs().On(side), price);
        return 0;
      }
      var idx := price - cfg.basePrice;
      LevelTotals(cfg, R(), side, idx);
      TotalAtLevel(cfg, slab.storage[..], side, R().Queues(side), price);
      total := if side.Buy? then bidLevels[idx].total else askLevels[idx].total;
    }

    method OpenOrders() returns (n: nat)
      requires Kept()
      ensures n == Abs().Size()
    {
      n := slab.inUse;
    }

    /** find: the resting order with this id, if the id index finds it, with its side; on a valid engine, if any. */
    method Find(id: OrderId) returns (o: Option<(Side, Resting)>)
      requires Sane()
      requires id != INVALID_ORDER_ID
      ensures o == if ids.Findable(id) then Lookup(Abs(), id) else None
      ensures Valid() ==> o == Lookup(Abs(), id)
    {
      hide Kept, AllReachable, Holds, Finds, Lookup;
      var n := SlotOf(id);
      if n == NULL { return None; }
      var order := slab.storage[n].order;
      o := Some((order.side, Resting(order.id, order.price, order.qty)));
    }

    method TopBids(n: nat) returns (out: seq<LevelSnapshot>)
      requires Kept()
      ensures out == NaiveBook.TopN(Abs().bids, n)
    {
      hide Core, AllReachable, Holds, HasEmpty, Threaded, BookRep.Abs, Edge, Counted, NaiveBook.TopN, From, Rank;
      var i: nat := bestBid;
      out := [];
      WalkStart(Buy);
      while |out| < n && i != NO_BEST
        invariant Kept() && |out| <= n && OnLevel(Buy, i)
        invariant NaiveBook.TopN(Abs().bids, n) == out + NaiveBook.TopN(Beyond(Buy, i), n - |out|)
        decreases if i == NO_BEST then 0 else i + 1
      {
        InLimit(Buy, i);
        TopStep(Buy, i, n - |out|, out);
        var lvl := bidLevels[i];
        var j := NextBid(i);
        out := out + [LevelSnapshot(cfg.basePrice + i, lvl.total, lvl.count)];
        i := j;
      }
      WalkEnd(Buy, i);
      TopNEnd(Beyond(Buy, i), n - |out|, out);
    }

    method TopAsks(n: nat) returns (out: seq<LevelSnapshot>)
      requires Kept()
      ensures out == NaiveBook.TopN(Abs().asks, n)
    {
      hide Core, AllReachable, Holds, HasEmpty, Threaded, BookRep.Abs, Edge, Counted, NaiveBook.TopN, From, Rank;
      var i: nat := bestAsk;
      out := [];
      WalkStart(Sell);
      while |out| < n && i != NO_BEST
        invariant Kept() && |out| <= n && OnLevel(Sell, i)
        invariant NaiveBook.TopN(Abs().asks, n) == out + NaiveBook.TopN(Beyond(Sell, i), n - |out|)
        decreases if i == NO_BEST then 0 else NO_BEST - i
      {
        InLimit(Sell, i);
        TopStep(Sell, i, n - |out|, out);
        var lvl := askLevels[i];
        var j := NextAsk(i);
        out := out + [LevelSnapshot(cfg.basePrice + i, lvl.total, lvl.count)];
        i := j;
      }
      WalkEnd(Sell, i);
      TopNEnd(Beyond(Sell, i), n - |out|, out);
    }

    lemma WalkEnd(s: Side, i: nat)
      requires OnLevel(s, i)
      ensures i == NO_BEST ==> Beyond(s, i) == []
    {
    }

    method TopN(side: Side, n: nat) returns (out: seq<LevelSnapshot>)
      requires Kept()
      ensures out == NaiveBook.TopN(Abs().On(side), n)
    {
      if side.Buy? { out := TopBids(n); } else { out := TopAsks(n); }
    }

    // ----- submit ---------------------------------------------------------------------------

    /** Subtraction of prices seen as a size_t. */
    static function ToSize(x: int): nat {
      if x < 0 then x % 0x1_0000_0000_0000_0000 else x
    }

    predicate WouldCross(side: Side, p: Price)
      reads this
    {
      if side.Buy? then bestAsk != NO_BEST && ToSize(p - cfg.basePrice) >= bestAsk
      else bestBid != NO_BEST && ToSize(p - cfg.basePrice) <= bestBid
    }

    lemma CrossIs(side: Side, p: Price)
      requires Kept() && cfg.InRange(p)
      ensures WouldCross(side, p) == NaiveBook.WouldCross(Abs(), side, p)
    {
      hide Core, AllReachable, Holds, HasEmpty, Threaded, BookRep.Abs, Edge, Counted;
      BestFacts(cfg, R(), Buy, bidBits.Members(), bestBid);
      BestFacts(cfg, R(), Sell, askBits.Members(), bestAsk);
    }

    /** can_fully_fill for a buy: walk the asks adding 32-bit level totals. */
    method CanFillBuy(limitPrice: Price, qty: Quantity) returns (ok: bool)
      requires Kept()
      requires limitPrice != INVALID_PRICE ==> cfg.InRange(limitPrice)
      ensures ok == CanFill(Buy, Abs().asks, if limitPrice == INVALID_PRICE then Unbounded else UpTo(limitPrice), qty)
    {
      hide Core, AllReachable, Holds, HasEmpty, Threaded, BookRep.Abs, Edge, Counted, CanFill, From, Rank;
      ghost var bound := if limitPrice == INVALID_PRICE then Unbounded else UpTo(limitPrice);
      var isMarket := limitPrice == INVALID_PRICE;
      var i: nat := bestAsk;
      var limit := if isMarket then ToSize(cfg.numLevels - 1) else limitPrice - cfg.basePrice;
      var acc: Quantity := 0;
      WalkStart(Sell);
      while i != NO_BEST && i <= limit
        invariant Kept() && OnLevel(Sell, i)
        invariant CanFill(Buy, Abs().asks, bound, qty) == CanFill(Buy, Beyond(Sell, i), bound, qty, acc)
        decreases if i == NO_BEST then 0 else NO_BEST - i
      {
        InLimit(Sell, i);
        FillStep(Buy, i, bound, qty, acc);
        acc := Wrap32(acc + askLevels[i].total);
        if acc >= qty { return true; }
        i := NextAsk(i);
      }
      InLimit(Sell, i);
      FillEnd(Buy, i, bound, qty, acc);
      ok := false;
    }

    lemma InLimit(s: Side, i: nat)
      requires Kept() && OnLevel(s, i)
      ensures i != NO_BEST ==> i < cfg.numLevels == Levels(s).Length
    {
      hide Core, Counted, Edges;
    }

    /** can_fully_fill for a sell: walk the bids adding 32-bit level totals. */
    method CanFillSell(limitPrice: Price, qty: Quantity) returns (ok: bool)
      requires Kept()
      requires limitPrice != INVALID_PRICE ==> cfg.InRange(limitPrice)
      ensures ok == CanFill(Sell, Abs().bids, if limitPrice == INVALID_PRICE then Unbounded else UpTo(limitPrice), qty)
    {
      hide Core, AllReachable, Holds, HasEmpty, Threaded, BookRep.Abs, Edge, Counted, CanFill, From, Rank;
      ghost var bound := if limitPrice == INVALID_PRICE then Unbounded else UpTo(limitPrice);
      var isMarket := limitPrice == INVALID_PRICE;
      var i: nat := bestBid;
      var limit := if isMarket then 0 else limitPrice - cfg.basePrice;
      var acc: Quantity := 0;
      WalkStart(Buy);
      while i != NO_BEST && i >= limit
        invariant Kept() && OnLevel(Buy, i)
        invariant CanFill(Sell, Abs().bids, bound, qty) == CanFill(Sell, Beyond(Buy, i), bound, qty, acc)
        decreases if i == NO_BEST then 0 else i + 1
      {
        FillStep(Sell, i, bound, qty, acc);
        acc := Wrap32(acc + bidLevels[i].total);
        if acc >= qty { return true; }
        i := NextBid(i);
      }
      FillEnd(Sell, i, bound, qty, acc);
      ok := false;
    }

    method CanFullyFill(side: Side, limitPrice: Price, qty: Quantity) returns (ok: bool)
      requires Kept()
      requires limitPrice != INVALID_PRICE ==> cfg.InRange(limitPrice)
      ensures ok == CanFill(side, Abs().On(side.Opposite()),
          if limitPrice == INVALID_PRICE then Unbounded else UpTo(limitPrice), qty)
    {
      if side.Buy? { ok := CanFillBuy(limitPrice, qty); } else { ok := CanFillSell(limitPrice, qty); }
    }

    /** The aggressive phase of submit. */
    method Aggress(r: Request, ghost more: seq<Edit>, ghost safe: bool)
      returns (remaining: Quantity, trades: seq<Trade>)
      requires Kept() && CanTake(r.id)
      requires r.kind.Limit? ==> cfg.InRange(r.price)
      requires r.tif.PostOnly? ==> r.kind.Market? || !NaiveBook.WouldCross(Abs(), r.side, r.price)
      requires safe ==> Follows((if r.tif.PostOnly? && r.kind.Market? then [] else MatchEdits(Abs(), r)) + more)
      modifies Repr()
      ensures Kept() && CanTake(r.id)
      ensures safe ==> Follows(more)
      ensures r.tif.PostOnly? && r.kind.Market? ==> remaining == r.qty && trades == [] && Abs() == old(Abs())
      ensures !(r.tif.PostOnly? && r.kind.Market?) ==> var m := MatchRequest(old(Abs()), r);
        remaining == m.remaining && trades == m.trades && Abs() == old(Abs()).With(r.side.Opposite(), m.rest)
      ensures r.kind.Limit? && !NaiveBook.WouldCross(old(Abs()), r.side, r.price) ==>
        ids.slots[..] == old(ids.slots[..])
    {
      hide Core, AllReachable, Holds, HasEmpty, Threaded, BookRep.Abs, Edge, Counted, Match, NaiveBook.WouldCross,
        Kept, CanTake, Follows, Repr, Emptied;
      ghost var bound := RequestBound(r);
      var a := Aggressor(r.id, r.side, r.ts);
      var isMarket := r.kind.Market?;
      remaining, trades := r.qty, [];
      Regroup([], [], more);
      if r.kind.Limit? { CrossIs(r.side, r.price); }
      if !r.tif.PostOnly? && (isMarket || WouldCross(r.side, r.price)) {
        var limit: nat := if isMarket then NO_BEST else r.price - cfg.basePrice;
        LimitFits(limit, bound, r);
        if r.side.Buy? {
          remaining, trades := MatchBuy(limit, r.qty, a, bound, more, safe);
        } else {
          remaining, trades := MatchSell(limit, r.qty, a, bound, more, safe);
        }
      } else if r.kind.Limit? {
        NoMatch(Abs(), r);
      }
    }

    lemma LimitFits(limit: nat, bound: Bound, r: Request)
      requires Kept() && bound == RequestBound(r) && (r.kind.Limit? ==> cfg.InRange(r.price))
      requires limit == if r.kind.Market? then NO_BEST else r.price - cfg.basePrice
      ensures LimitIs(cfg, limit, bound)
    {
    }

    /** What submit does once the request has passed every check: match, then drop or rest the remainder. */
    method Execute(r: Request, ghost more: seq<Edit>, ghost safe: bool)
      returns (result: SubmitResult, trades: seq<Trade>)
      requires Kept() && CanTake(r.id)
      requires !BadRequest(cfg, Abs(), r)
      requires (r.tif.PostOnly? && r.kind.Market?) || !KilledEarly(Abs(), r)
      requires NaiveBook.Submit(cfg, Abs(), r).book.Size() <= cfg.maxOrders
      requires safe ==> Follows(SubmitEdits(cfg, Abs(), r) + more)
      modifies Repr()
      ensures Kept()
      ensures Outcome(Abs(), result, trades) == NaiveBook.Submit(cfg, old(Abs()), r)
      ensures RestsAtOnce(cfg, old(Abs()), r) ==> IdAdded(old(ids.slots[..]), r.id)
      ensures safe ==> Follows(more)
    {
      hide Kept, CanTake, Follows, BookRep.Abs, Match, CanFill, Index, Insert, MatchRequest, NaiveBook.WouldCross,
        MatchEdits, InsertedInto;
      ghost var b := Abs();
      ghost var rest := if r.tif.PostOnly? && r.kind.Market? then [] else RestEdits(b, r);
      ghost var fills := if r.tif.PostOnly? && r.kind.Market? then [] else MatchEdits(b, r);
      Regroup(fills, rest, more);
      var remaining;
      remaining, trades := Aggress(r, rest + more, safe);
      Regroup([], [], more);
      MatchRequestLeaves(b, r);
      if remaining == 0 {
        RestingMeetsNobody(cfg, b, r);
        return SubmitResult(FullyFilled, r.qty, 0), trades;
      }
      if r.tif.IOC? || r.kind.Market? {
        var filled := r.qty - remaining;
        return SubmitResult(if filled > 0 then PartiallyFilled else LobTypes.Cancelled, filled, remaining), trades;
      }
      RestRoom(cfg, b, r);
      NotHeld(r.id);
      InsertResting(r.id, r.side, r.price, remaining, more, safe);
      result := SubmitResult(if r.qty == remaining then Accepted else PartiallyFilled, r.qty - remaining, remaining);
    }

    lemma IndexFits()
      requires Kept()
      ensures |index| <= cfg.maxOrders
    {
      hide Core, Counted, Edge, Threaded, BookRep.Abs;
    }

    lemma PriceIsReal(price: Price)
      requires Kept() && cfg.InRange(price)
      ensures price != INVALID_PRICE
    {
      hide Core, Counted, Edge, Threaded, BookRep.Abs;
    }

    lemma NotHeld(id: OrderId)
      requires Kept() && Lookup(Abs(), id).None?
      ensures id !in index
    {
      hide Core, Counted, Edge, Threaded, BookRep.Abs;
      Located(cfg, R(), id);
    }

    /** The id index lets id in: it is right and does not find id, or id is not in it and there is room. */
    lemma CanTakeNew(id: OrderId)
      requires id != INVALID_ORDER_ID && !ids.Findable(id)
      requires Valid() || (Sane() && CanTake(id))
      ensures CanTake(id) && Lookup(Abs(), id).None?
    {
      hide Core, Counted, Edge, Threaded, BookRep.Abs, Finds;
      Located(cfg, R(), id);
      if Valid() && id in ids.entries { StoredIsFound(id); }
    }

    /** The checks submit makes before it touches anything: the result if one of them ends the call, else none. */
    method Screen(r: Request) returns (early: Option<SubmitResult>)
      requires Valid() || (Sane() && CanTake(r.id))
      ensures early.Some? ==> NaiveBook.Submit(cfg, Abs(), r) == Outcome(Abs(), early.value, [])
      ensures early.Some? ==> SubmitEdits(cfg, Abs(), r) == [] && !RestsAtOnce(cfg, Abs(), r)
      ensures early.None? ==> CanTake(r.id) && !BadRequest(cfg, Abs(), r)
      ensures early.None? ==> (r.tif.PostOnly? && r.kind.Market?) || !KilledEarly(Abs(), r)
    {
      hide Kept, BookRep.Abs, Match, CanFill, Index, Insert, MatchRequest, NaiveBook.WouldCross,
        MatchEdits, Lookup, Finds;
      LookupLocates(Abs(), r.id);
      if r.qty == 0 || r.id == INVALID_ORDER_ID {
        return Some(SubmitResult(Rejected, 0, 0));
      }
      var n := SlotOf(r.id);
      if n != NULL {
        return Some(SubmitResult(Rejected, 0, 0));
      }
      CanTakeNew(r.id);
      var isMarket := r.kind.Market?;
      if !isMarket && !cfg.InRange(r.price) {
        return Some(SubmitResult(Rejected, 0, 0));
      }
      if !isMarket { PriceIsReal(r.price); }
      if r.tif.FOK? {
        var ok := CanFullyFill(r.side, if isMarket then INVALID_PRICE else r.price, r.qty);
        if !ok { return Some(SubmitResult(LobTypes.Cancelled, 0, r.qty)); }
      }
      if r.tif.PostOnly? {
        if !isMarket { CrossIs(r.side, r.price); }
        if WouldCross(r.side, r.price) {
          return Some(SubmitResult(LobTypes.Cancelled, 0, r.qty));
        }
      }
      early := None;
    }

    lemma ReadyIsKept(id: OrderId)
      requires Valid() || (Sane() && CanTake(id))
      ensures Kept() && Sane()
    {
      hide Kept;
    }

    /** A kept engine whose id index follows these edits is a valid one for which they are safe. */
    lemma FollowsIsValid(edits: seq<Edit>)
      requires Kept()
      ensures Follows(edits) <==> Valid() && ids.Safe(edits)
    {
      hide Kept;
    }

    /** submit: on a valid engine always right, whatever its erases do to the id index; and right again where only
        the id index is not valid any more, if the new id can get into it, as after the cancel inside modify. The
        only effects on the id index are those of SubmitEdits: an order that meets nobody puts its id in and
        touches nothing else of it. */
    method Submit(r: Request, ghost more: seq<Edit> := [], ghost safe: bool := false)
      returns (result: SubmitResult, trades: seq<Trade>)
      requires Valid() || (Sane() && CanTake(r.id))
      requires NaiveBook.Submit(cfg, Abs(), r).book.Size() <= cfg.maxOrders
      requires safe ==> Valid() && ids.Safe(SubmitEdits(cfg, Abs(), r) + more)
      modifies Repr()
      ensures Kept()
      ensures Outcome(Abs(), result, trades) == NaiveBook.Submit(cfg, old(Abs()), r)
      ensures RestsAtOnce(cfg, old(Abs()), r) ==> IdAdded(old(ids.slots[..]), r.id)
      ensures safe ==> Valid() && ids.Safe(more)
    {
      hide Valid, Sane, Kept, Abs, CanTake, Follows, IdAdded, NaiveBook.Submit, SubmitEdits, BadRequest, KilledEarly,
        RestsAtOnce, OrderIdMap.Safe;
      Regroup([], [], more);
      ReadyIsKept(r.id);
      FollowsIsValid(SubmitEdits(cfg, Abs(), r) + more);
      var early := Screen(r);
      if early.Some? { return early.value, []; }
      result, trades := Execute(r, more, safe);
      FollowsIsValid(more);
    }

    /** Right on any valid engine: the submit inside needs only that the id has left the index, and room in it. */
    method Modify(id: OrderId, newQty: Quantity, newPrice: Price, ts: Timestamp, ghost more: seq<Edit> := [],
                  ghost safe: bool := false)
      returns (result: SubmitResult, trades: seq<Trade>)
      requires Valid()
      requires id != INVALID_ORDER_ID
      requires NaiveBook.Modify(cfg, Abs(), id, newQty, newPrice, ts).book.Size() <= cfg.maxOrders
      requires safe ==> ids.Safe(ModifyEdits(cfg, Abs(), id, newQty, newPrice, ts) + more)
      modifies Repr()
      ensures Kept()
      ensures Outcome(Abs(), result, trades) == NaiveBook.Modify(cfg, old(Abs()), id, newQty, newPrice, ts)
      ensures safe ==> Valid() && ids.Safe(more)
    {
      hide Kept, BookRep.Abs, NaiveBook.Submit, NaiveBook.Cancel, Resize, Lookup, IdErased, IdAdded, SubmitEdits,
        CancelEdits, RestsAtOnce, Finds, CanTake;
      Regroup([], [], more);
      ghost var b := Abs();
      var n := SlotOf(id);
      if n == NULL { return SubmitResult(Rejected, 0, 0), []; }
      var o := slab.storage[n].order;
      if newPrice == o.price && newQty > 0 && newQty <= o.qty {
        ShrinkResting(n, id, newQty);
        return SubmitResult(Accepted, 0, newQty), [];
      }
      var r := Replacement(id, o.side, newQty, newPrice, ts);
      Regroup(CancelEdits(b, id), SubmitEdits(cfg, NaiveBook.Cancel(b, id).0, r), more);
      ghost var was, held := ids.slots[..], ids.entries;
      IndexFits();
      var _ := Cancel(id, SubmitEdits(cfg, NaiveBook.Cancel(b, id).0, r) + more, safe);
      LetsIn(id, id, was, held);
      result, trades := Submit(r, more, safe);
    }

    // ----- runs -----------------------------------------------------------------------------------

    /** One operation, right on any valid engine; the engine stays valid if the operation's erases are safe. */
    method Perform(op: Op, ghost more: seq<Edit> := [], ghost safe: bool := false)
      returns (reply: Reply, trades: seq<Trade>)
      requires Valid()
      requires Admissible(op) && Step(cfg, Abs(), op).book.Size() <= cfg.maxOrders
      requires safe ==> ids.Safe(OpEdits(cfg, Abs(), op) + more)
      modifies Repr()
      ensures Kept()
      ensures Effect(Abs(), reply, trades) == Step(cfg, old(Abs()), op)
      ensures safe ==> Valid() && ids.Safe(more)
    {
      hide Kept, Abs, NaiveBook.Submit, NaiveBook.Cancel, NaiveBook.Reduce, NaiveBook.Modify, SubmitEdits,
        CancelEdits, ReduceEdits, ModifyEdits, SafeEdits, IdErased, IdAdded, RestsAtOnce, OrderIdMap.Safe,
        OrderIdMap.Findable, Lookup;
      match op
      case DoSubmit(r) =>
        var result;
        result, trades := Submit(r, more, safe);
        reply := Report(result);
      case DoCancel(id) =>
        var ok := Cancel(id, more, safe);
        reply, trades := Done(ok), [];
      case DoReduce(id, amount) =>
        var ok := Reduce(id, amount, more, safe);
        reply, trades := Done(ok), [];
      case DoModify(id, qty, price, ts) =>
        var result;
        result, trades := Modify(id, qty, price, ts, more, safe);
        reply := Report(result);
    }

    /** The engine simulates the naive book over every run that stays within its capacity: with the intended erase
        over all of them, with the coded one over those whose erases are all safe. */
    method PerformAll(ops: seq<Op>, ghost more: seq<Edit> := []) returns (replies: seq<Reply>, trades: seq<Trade>)
      requires Valid()
      requires forall i :: 0 <= i < |ops| ==> Admissible(ops[i])
      requires forall i :: 0 <= i <= |ops| ==> Run(cfg, Abs(), ops[..i]).book.Size() <= cfg.maxOrders
      requires ids.Safe(RunEdits(cfg, Abs(), ops) + more)
      modifies Repr()
      ensures Valid() && ids.Safe(more)
      ensures Trace(Abs(), replies, trades) == Run(cfg, old(Abs()), ops)
    {
      hide Valid, Abs, Step, OpEdits, SafeEdits, OrderIdMap.Safe;
      replies, trades := [], [];
      ghost var b := Abs();
      assert ops[0..] == ops;
      for i := 0 to |ops|
        invariant Valid()
        invariant Trace(Abs(), replies, trades) == Run(cfg, b, ops[..i])
        invariant ids.Safe(RunEdits(cfg, Abs(), ops[i..]) + more)
      {
        assert ops[..i + 1][..i] == ops[..i] && ops[..i + 1][i] == ops[i];
        assert ops[i..][0] == ops[i] && ops[i..][1..] == ops[i + 1..];
        ghost var later := RunEdits(cfg, Step(cfg, Abs(), ops[i]).book, ops[i + 1..]);
        Regroup(OpEdits(cfg, Abs(), ops[i]), later, more);
        var reply, ts := Perform(ops[i], later + more, true);
        replies, trades := replies + [reply], trades + ts;
      }
      Regroup([], [], more);
      assert ops[..|ops|] == ops;
    }
  }

  /** Ids other than submitted ones must be real: 0 marks an empty slot of the id index. */
  predicate Admissible(op: Op) {
    match op
    case DoSubmit(_) => true
    case DoCancel(id) => id != INVALID_ORDER_ID
    case DoReduce(id, _) => id != INVALID_ORDER_ID
    case DoModify(id, _, _, _) => id != INVALID_ORDER_ID
  }
}
