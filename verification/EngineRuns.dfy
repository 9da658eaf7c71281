/** Whole runs of the engine from construction on: what holds of its arrays, its best levels and the
    shares that went through it. */
module EngineRuns {
  import opened LobTypes
  import opened OrderStore
  import opened NaiveBook
  import opened NaiveLaws
  import opened NaiveRuns
  import opened BookRep
  import opened BookMatching
  import opened BookQueries
  import opened OrderBooks
  import opened NaivePriority
  import opened BookEdits
  import opened OrderIdMaps
  import opened SplitMix
  import opened Words

  function Counts(levels: seq<Level>): nat {
    if levels == [] then 0 else Counts(levels[..|levels| - 1]) + levels[|levels| - 1].count
  }

  lemma {:induction false} BidCounts(store: seq<Slot>, levels: seq<Level>, q: seq<seq<nat>>, a: nat)
    requires LevelsOK(store, levels, q) && a <= |q|
    ensures |Chain(Buy, q, a, |q|)| == Counts(levels[..|q| - a])
    decreases |q| - a
  {
    if a < |q| {
      BidCounts(store, levels, q, a + 1);
      assert LevelOK(store, levels[|q| - 1 - a], q[|q| - 1 - a]);
      assert levels[..|q| - a][..|q| - a - 1] == levels[..|q| - a - 1];
    }
  }

  lemma {:induction false} AskCounts(store: seq<Slot>, levels: seq<Level>, q: seq<seq<nat>>, b: nat)
    requires LevelsOK(store, levels, q) && b <= |q|
    ensures |Chain(Sell, q, 0, b)| == Counts(levels[..b])
  {
    if b > 0 {
      AskCounts(store, levels, q, b - 1);
      ChainSplit(Sell, q, 0, b - 1, b);
      assert Chain(Sell, q, b - 1, b) == q[b - 1] + Chain(Sell, q, b, b);
      assert LevelOK(store, levels[b - 1], q[b - 1]);
      assert levels[..b][..b - 1] == levels[..b - 1];
    }
  }

  lemma QueueCounts(c: Config, r: Rep)
    requires Core(c, r)
    ensures |Flatten(Buy, r.bidQ)| + |Flatten(Sell, r.askQ)| == Counts(r.bids) + Counts(r.asks)
  {
    hide LevelOK, Placed, Accounted, Chain, Counts;
    BidCounts(r.store, r.bids, r.bidQ, 0);
    AskCounts(r.store, r.asks, r.askQ, |r.askQ|);
    assert r.bids[..|r.bidQ|] == r.bids && r.asks[..|r.askQ|] == r.asks;
  }

  /** in_use is the sum of all the level counts. */
  lemma InUseIsCounts(book: OrderBook)
    requires book.Kept()
    ensures book.slab.inUse == Counts(book.bidLevels[..]) + Counts(book.askLevels[..])
  {
    hide Core, Edge, Threaded;
    QueueCounts(book.cfg, book.R());
  }

  lemma OnOneList(c: Config, r: Rep, n: nat, s: Side, l: nat)
    requires Core(c, r) && n < |r.store| && l < c.numLevels
    ensures n in r.free <==> r.store[n].Free?
    ensures |r.bidQ| == |r.askQ| == c.numLevels && Distinct(r.Queues(s)[l])
    ensures n in r.Queues(s)[l] <==>
      r.store[n].Live? && s == r.store[n].order.side && l == r.store[n].order.levelIdx
    ensures r.store[n].Live? ==> r.store[n].order.levelIdx < c.numLevels
  {
    assert LevelOK(r.store, r.Levels(s)[l], r.Queues(s)[l]);
  }

  /** Every slot is either on the free list or live on exactly one list of exactly one side, the one its
      cached side and level name; the free list and the level lists visit no slot twice. */
  lemma SlotsSplit(book: OrderBook, n: nat, s: Side, l: nat)
    requires book.Kept() && n < book.slab.storage.Length && l < book.cfg.numLevels
    ensures Distinct(book.slab.free)
    ensures n in book.slab.free <==> book.slab.storage[n].Free?
    ensures var q := book.R().Queues(s); |q| == book.cfg.numLevels && Distinct(q[l])
    ensures n in book.R().Queues(s)[l] <==>
      book.slab.storage[n].Live? && s == book.slab.storage[n].order.side && l == book.slab.storage[n].order.levelIdx
    ensures book.slab.storage[n].Live? ==> book.slab.storage[n].order.levelIdx < book.cfg.numLevels
  {
    hide Core, Edge, Counted, Linked;
    OnOneList(book.cfg, book.R(), n, s, l);
  }

  /** The best bid level of a well-formed book lies strictly below its best ask level. */
  lemma BestLevelsApart(book: OrderBook)
    requires book.Kept() && WellFormed(book.cfg, book.Abs())
    ensures book.bestBid != NO_BEST && book.bestAsk != NO_BEST ==> book.bestBid < book.bestAsk
  {
    hide Core, BookRep.Abs, Edge, Counted, Threaded;
    BestFacts(book.cfg, book.R(), Buy, book.bidBits.Members(), book.bestBid);
    BestFacts(book.cfg, book.R(), Sell, book.askBits.Members(), book.bestAsk);
  }

  /** A session: a new engine, then any operations that respect its capacity, all of them with the intended erase,
      those whose erases are all safe with the coded one. It replies and trades as the naive book does, keeps
      price-time priority, never ends up crossed, and loses no share. */
  method Session(c: Config, hash: Hash, backshift: Backshift, ops: seq<Op>)
    returns (book: OrderBook, replies: seq<Reply>, trades: seq<Trade>)
    requires c.Valid()
    requires forall i :: 0 <= i < |ops| ==> Admissible(ops[i])
    requires forall i :: 0 <= i <= |ops| ==> Run(c, Book([], []), ops[..i]).book.Size() <= c.maxOrders
    requires Harmless(c, hash, backshift, RunEdits(c, Book([], []), ops))
    ensures book.Valid() && book.cfg == c
    ensures Trace(book.Abs(), replies, trades) == Run(c, Book([], []), ops)
    ensures WellFormed(c, book.Abs()) && BookInTimeOrder(book.Abs(), Arrival(c, ops), |ops|)
    ensures book.bestBid != NO_BEST && book.bestAsk != NO_BEST ==> book.bestBid < book.bestAsk
    ensures RunEntered(c, Book([], []), ops) ==
      2 * Traded(trades) + RunWithdrawn(c, Book([], []), ops) + BookTotal(book.Abs())
  {
    hide OrderBook.Valid, OrderBook.Kept, OrderBook.Abs, Run, WellFormed, RunEntered, RunWithdrawn, BookTotal,
      BookInTimeOrder, Arrival, RunEdits, FreshTable, SafeEdits;
    book := new OrderBook(c, hash, backshift);
    ghost var edits := RunEdits(c, Book([], []), ops);
    assert edits + [] == edits;
    replies, trades := book.PerformAll(ops, []);
    ReachableIsWellFormed(c, ops);
    ReachableIsInTimeOrder(c, ops);
    book.ValidIsSane();
    BestLevelsApart(book);
    RunConserves(c, ops);
  }

  // ----- where the coded erase goes wrong ----------------------------------------------------

  /** An engine whose index has lost sight of an entry answers wrongly for some resting order: cancel, reduce,
      modify and find do not find it. */
  lemma SaneNotValid(book: OrderBook) returns (id: OrderId)
    requires book.Sane() && !book.Valid()
    ensures Lookup(book.Abs(), id).Some? && !book.ids.Findable(id)
  {
    hide Core, Edge, Counted, Threaded, Reachable;
    var t := book.ids.slots[..];
    var j :| 0 <= j < |t| && t[j].id != 0 && !Reachable(book.ids.hash, t, j);
    id := t[j].id;
    Located(book.cfg, book.R(), id);
    if k :| 0 <= k < |t| && t[k].id == id && Reachable(book.ids.hash, t, k) {
      OnlyThere(t, book.ids.entries, book.ids.places, j, k);
    }
  }

  function Bid(id: OrderId, price: Price): Request {
    Request(id, Buy, Limit, GTC, price, 10, 0)
  }

  /** A book of bids for ten at one price, in this order. */
  function Bids(ids: seq<OrderId>, price: Price): (b: Book)
    ensures |b.bids| == |ids| && b.asks == [] && forall i :: 0 <= i < |ids| ==> b.bids[i] == Resting(ids[i], price, 10)
  {
    Book(seq(|ids|, i requires 0 <= i < |ids| => Resting(ids[i], price, 10)), [])
  }

  /** Behind others at its price, an order is inserted last. */
  lemma {:induction false} InsertLast(os: seq<Resting>, o: Resting)
    requires forall i :: 0 <= i < |os| ==> os[i].price == o.price
    ensures Insert(Buy, os, o) == os + [o]
  {
    if os != [] {
      InsertLast(os[1..], o);
      assert os == [os[0]] + os[1..];
    } else {
      assert os + [o] == [o];
    }
  }

  /** One more bid at the price. */
  method RestBid(book: OrderBook, ghost resting: seq<OrderId>, id: OrderId, price: Price)
    requires book.Valid() && book.ids.backshift.AsCoded? && book.Abs() == Bids(resting, price)
    requires id != INVALID_ORDER_ID && id !in resting && book.cfg.InRange(price) && |resting| < book.cfg.maxOrders
    modifies book.Repr()
    ensures book.Valid() && book.Abs() == Bids(resting + [id], price)
    ensures book.IdAdded(old(book.ids.slots[..]), id)
  {
    hide OrderBook.Valid, OrderBook.Abs, OrderBook.IdAdded, SafeEdits, NaiveBook.Submit, Insert, OrderBook.CanTake;
    BidRests(book.cfg, resting, id, price);
    OneCameIsSafe(book, id);
    var _, _ := book.Submit(Bid(id, price), [], true);
  }

  lemma BidRests(c: Config, resting: seq<OrderId>, id: OrderId, price: Price)
    requires id != INVALID_ORDER_ID && id !in resting && c.InRange(price)
    ensures var b, r := Bids(resting, price), Bid(id, price);
      && RestsAtOnce(c, b, r) && SubmitEdits(c, b, r) == [Came(id)]
      && NaiveBook.Submit(c, b, r).book == Bids(resting + [id], price)
  {
    hide Insert, Index, Locate, NaiveBook.Submit, SubmitEdits;
    var b, r := Bids(resting, price), Bid(id, price);
    AbsentFromBoth(b, id);
    SubmitRests(c, b, r);
    RestingEdits(c, b, r);
    InsertLast(b.bids, Resting(id, price, 10));
    assert b.bids + [Resting(id, price, 10)] == Bids(resting + [id], price).bids;
  }

  lemma RestingEdits(c: Config, b: Book, r: Request)
    requires RestsAtOnce(c, b, r)
    ensures SubmitEdits(c, b, r) == [Came(r.id)]
  {
    hide Locate;
    assert MatchRequest(b, r).remaining == r.qty && MatchEdits(b, r) == [];
  }

  lemma OneCameIsSafe(book: OrderBook, id: OrderId)
    ensures book.ids.Safe([Came(id)] + [])
  {
    assert ([Came(id)] + [])[1..] == [];
  }

  /** Three bids at one price whose ids collide, and what they do to the id index. */
  method RestThree(c: Config, hash: Hash, price: Price, x: OrderId, y: OrderId, z: OrderId)
    returns (book: OrderBook, ghost u: int, ghost v: int, ghost w: int)
    requires c.Valid() && c.InRange(price) && c.maxOrders >= 3
    requires Colliding(hash, RoundUpPow2(2 * c.maxOrders), x, y, z)
    ensures book.Valid() && book.cfg == c && book.ids.hash == hash && book.ids.backshift.AsCoded?
    ensures fresh(book.Repr()) && book.Abs() == Bids([x, y, z], price)
    ensures book.ids.slots[..] == Cluster(hash, RoundUpPow2(2 * c.maxOrders), x, y, z, u, v, w)
  {
    hide OrderBook.Valid, OrderBook.Abs, InsertedInto, StopsAt, Shifted, ErasesAt, Finds, HasEmpty, RoundUpPow2, Home,
      Bids, OrderBook.IdAdded;
    book := new OrderBook(c, hash, AsCoded);
    ghost var t0, cap := book.ids.slots[..], RoundUpPow2(2 * c.maxOrders);
    ghost var i := Home(hash, cap, x);
    ghost var j := Next(cap, i);
    assert t0 == EmptyTable(cap);
    RestBid(book, [], x, price);
    u := AddedValue(book, t0, x);
    ghost var t1 := book.ids.slots[..];
    RestBid(book, [x], y, price);
    v := AddedValue(book, t1, y);
    ghost var t2 := book.ids.slots[..];
    RestBid(book, [x, y], z, price);
    w := AddedValue(book, t2, z);
    assert [] + [x] == [x] && [x] + [y] == [x, y] && [x, y] + [z] == [x, y, z];
    CodedEraseLosesAKey(hash, cap, x, y, z, u, v, w);
    InsertedAt(hash, t0, x, u, i, t1);
    InsertedAt(hash, t1, y, v, j, t2);
    InsertedAt(hash, t2, z, w, Next(cap, j), book.ids.slots[..]);
  }

  lemma AddedValue(book: OrderBook, was: Table, id: OrderId) returns (v: int)
    requires book.IdAdded(was, id)
    ensures InsertedInto(book.ids.hash, was, id, v, book.ids.slots[..])
  {
    hide InsertedInto;
    v :| InsertedInto(book.ids.hash, was, id, v, book.ids.slots[..]);
  }

  /** A session of the engine as coded that goes wrong, whatever the hash: three bids at one price, the ids of the
      first and the third sharing a home slot and that of the second living next door; cancelling the first
      succeeds, and cancelling the third, which still rests, is refused. */
  method CodedEngineLosesAnOrder(c: Config, hash: Hash, price: Price, x: OrderId, y: OrderId, z: OrderId)
    returns (book: OrderBook, first: bool, third: bool)
    requires c.Valid() && c.InRange(price) && c.maxOrders >= 3
    requires Colliding(hash, RoundUpPow2(2 * c.maxOrders), x, y, z)
    ensures first && !third
    ensures book.Sane() && book.cfg == c && book.ids.hash == hash && book.ids.backshift.AsCoded?
    ensures Lookup(book.Abs(), z) == Some((Buy, Resting(z, price, 10)))
  {
    hide OrderBook.Valid, OrderBook.Sane, OrderBook.Abs, ErasedFrom, StopsAt, Shifted, ErasesAt, Finds,
      HasEmpty, RoundUpPow2, NaiveBook.Cancel, Lookup, EraseSafe, AllReachable, Home, Bids;
    ghost var u, v, w;
    book, u, v, w := RestThree(c, hash, price, x, y, z);
    ghost var t, cap := book.ids.slots[..], RoundUpPow2(2 * c.maxOrders);
    ghost var i := Home(hash, cap, x);
    CodedEraseLosesAKey(hash, cap, x, y, z, u, v, w);
    FirstFound(hash, cap, x, y, z, u, v, w);
    book.ValidIsSane();
    CancelFirst(x, y, z, price);
    first := book.Cancel(x);
    ErasedOnce(hash, t, x, i, i, t[i := Entry(0, u)], book.ids.slots[..]);
    third := book.Cancel(z);
  }

  lemma CancelFirst(x: OrderId, y: OrderId, z: OrderId, price: Price)
    requires x != y && x != z && y != z
    ensures var b' := NaiveBook.Cancel(Bids([x, y, z], price), x);
      b'.1 && Lookup(b'.0, z) == Some((Buy, Resting(z, price, 10)))
  {
    var bids := Bids([x, y, z], price).bids;
    assert Index(bids, x) == 0;
    var rest := Remove(bids, x);
    assert rest == [Resting(y, price, 10), Resting(z, price, 10)];
    assert Index(rest, z) == 1;
  }

  /** The engine as it stands, with its own hash and room for four orders: bid with ids 1, 17 and 11, cancel 1, and
      11 rests but cannot be cancelled. */
  method SourceEngineLosesAnOrder() returns (book: OrderBook, first: bool, third: bool)
    ensures first && !third
    ensures book.cfg == Config(0, 10, 4) && book.ids.hash == SourceHash() && book.ids.backshift.AsCoded?
    ensures Lookup(book.Abs(), 11) == Some((Buy, Resting(11, 5, 10)))
  {
    hide Colliding, RoundUpPow2, Mixed, OrderBook.Abs, OrderBook.Sane, Lookup;
    EightIsPow2();
    SourceHashCollides();
    book, first, third := CodedEngineLosesAnOrder(Config(0, 10, 4), SourceHash(), 5, 1, 17, 11);
  }
}
