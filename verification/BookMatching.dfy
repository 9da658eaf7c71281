/** The matching loops and the operations around them, step by step beside the specification. */
module BookMatching {
  import opened LobTypes
  import opened OrderStore
  import opened NaiveBook
  import opened NaiveRuns
  import opened BookRep
  import opened BookChanges
  import opened OrderIdMaps
  import opened BookEdits

  lemma CancelIs(b: Book, id: OrderId, s: Side)
    requires Locate(b, id) == Some(s)
    ensures NaiveBook.Cancel(b, id) == (b.With(s, Remove(b.On(s), id)), true)
  {
  }

  /** Cancel and its edits, told by what a lookup finds. */
  lemma CancelByLookup(b: Book, id: OrderId)
    ensures Lookup(b, id).None? ==> NaiveBook.Cancel(b, id) == (b, false) && CancelEdits(b, id) == []
    ensures Lookup(b, id).Some? ==> NaiveBook.Cancel(b, id).1 && CancelEdits(b, id) == [Gone(id)]
  {
  }

  /** Reduce and its edits, told by what a lookup finds. */
  lemma ReduceByLookup(b: Book, id: OrderId, amount: Quantity)
    ensures Lookup(b, id).None? ==> NaiveBook.Reduce(b, id, amount) == (b, false) && ReduceEdits(b, id, amount) == []
    ensures Lookup(b, id).Some? ==> var (s, o) := Lookup(b, id).value;
      && (amount >= o.qty ==>
            && NaiveBook.Reduce(b, id, amount) == NaiveBook.Cancel(b, id) && NaiveBook.Cancel(b, id).1
            && ReduceEdits(b, id, amount) == [Gone(id)])
      && (amount < o.qty ==>
            && NaiveBook.Reduce(b, id, amount) == (b.With(s, Resize(b.On(s), id, o.qty - amount)), true)
            && ReduceEdits(b, id, amount) == [])
  {
  }

  /** One fill of an aggressor that wants qty against the front of os leaves rest and remaining. */
  ghost predicate FilledFront(a: Aggressor, os: seq<Resting>, qty: Quantity, rest: seq<Resting>, remaining: Quantity,
      trade: Trade)
    requires os != []
  {
    && trade == Trade(os[0].id, a.id, os[0].price, Min(qty, os[0].qty), a.ts, a.side)
    && remaining == qty - Min(qty, os[0].qty)
    && rest == FrontRest(os, qty)
  }

  lemma FilledIs(a: Aggressor, os: seq<Resting>, qty: Quantity, rest: seq<Resting>, remaining: Quantity, trade: Trade)
    requires os != [] && FilledFront(a, os, qty, rest, remaining, trade)
    ensures rest == FrontRest(os, qty) && remaining == qty - Min(qty, os[0].qty)
  {
  }

  lemma FrontShrinks(a: Aggressor, os: seq<Resting>, qty: Quantity, trade: Trade)
    requires os != [] && qty < os[0].qty && trade == Fill(a, os[0], qty)
    ensures FilledFront(a, os, qty, Resize(os, os[0].id, os[0].qty - qty), 0, trade)
  {
  }

  lemma FrontGoes(a: Aggressor, os: seq<Resting>, qty: Quantity, trade: Trade)
    requires os != [] && os[0].qty <= qty && trade == Fill(a, os[0], os[0].qty)
    ensures FilledFront(a, os, qty, Remove(os, os[0].id), qty - os[0].qty, trade)
  {
  }

  /** Matching (os, qty) comes to the trades so far followed by matching what is left. */
  ghost predicate Continues(a: Aggressor, os: seq<Resting>, bound: Bound, qty: Quantity, rest: seq<Resting>,
      remaining: Quantity, trades: seq<Trade>) {
    var m, n := Match(a, os, bound, qty), Match(a, rest, bound, remaining);
    m.rest == n.rest && m.remaining == n.remaining && m.trades == trades + n.trades
  }

  lemma ContinuesStart(a: Aggressor, os: seq<Resting>, bound: Bound, qty: Quantity)
    ensures Continues(a, os, bound, qty, os, qty, [])
  {
  }

  lemma ContinuesStep(a: Aggressor, os: seq<Resting>, bound: Bound, qty: Quantity, mid: seq<Resting>, had: Quantity,
      trades: seq<Trade>,
      rest: seq<Resting>, remaining: Quantity, trade: Trade)
    requires Continues(a, os, bound, qty, mid, had, trades)
    requires had > 0 && mid != [] && Reaches(a.side, bound, mid[0].price)
    requires FilledFront(a, mid, had, rest, remaining, trade)
    ensures Continues(a, os, bound, qty, rest, remaining, trades + [trade])
  {
    assert mid[0].qty == Min(had, mid[0].qty) || had < mid[0].qty;
    var n := Match(a, rest, bound, remaining);
    assert trades + ([trade] + n.trades) == trades + [trade] + n.trades;
  }

  lemma ContinuesTrans(a: Aggressor, os: seq<Resting>, bound: Bound, qty: Quantity, mid: seq<Resting>, had: Quantity,
      trades: seq<Trade>,
      rest: seq<Resting>, remaining: Quantity, more: seq<Trade>)
    requires Continues(a, os, bound, qty, mid, had, trades)
    requires Continues(a, mid, bound, had, rest, remaining, more)
    ensures Continues(a, os, bound, qty, rest, remaining, trades + more)
  {
    var n := Match(a, rest, bound, remaining);
    assert trades + (more + n.trades) == trades + more + n.trades;
  }

  lemma ContinuesEnd(a: Aggressor, os: seq<Resting>, bound: Bound, qty: Quantity, rest: seq<Resting>,
      remaining: Quantity, trades: seq<Trade>)
    requires Continues(a, os, bound, qty, rest, remaining, trades)
    requires remaining == 0 || rest == [] || !Reaches(a.side, bound, rest[0].price)
    ensures Match(a, os, bound, qty) == MatchResult(rest, trades, remaining)
  {
    assert trades + [] == trades;
  }

  /** The limit index match_ is given stands for this bound. */
  ghost predicate LimitIs(c: Config, limit: nat, bound: Bound) {
    match bound
    case Unbounded => limit == NO_BEST
    case UpTo(p) => limit != NO_BEST && p == c.basePrice + limit
  }

  lemma LimitReaches(c: Config, s: Side, limit: nat, bound: Bound, i: nat, price: Price)
    requires LimitIs(c, limit, bound) && price == c.basePrice + i
    ensures Reaches(s, bound, price) <==> limit == NO_BEST || (if s.Buy? then i <= limit else i >= limit)
  {
  }

  lemma PartFill(c: Config, r: Rep, a: Aggressor, l: nat, n: nat, qty: Quantity, trade: Trade)
    requires Core(c, r) && Counted(r) && l < c.numLevels == |r.Queues(a.side.Opposite())|
    requires n < |r.store| && r.store[n].Live? && 0 < qty < r.store[n].order.qty
    requires r.store[n].order.side == a.side.Opposite()
    requires r.store[n].order.levelIdx == l < |r.Levels(a.side.Opposite())|
    requires var os := BookRep.Abs(r).On(a.side.Opposite()); os != [] && os[0] == View(r.store, n)
    requires trade == Fill(a, View(r.store, n), qty)
    ensures var s, r' := a.side.Opposite(), Shrunk(r, n, r.store[n].order.qty - qty);
      && Core(c, r') && Counted(r') && OnlyLevel(r, r', s, l)
      && BookRep.Abs(r').On(a.side) == BookRep.Abs(r).On(a.side)
      && FilledFront(a, BookRep.Abs(r).On(s), qty, BookRep.Abs(r').On(s), 0, trade)
  {
    hide Core, Counted, BookRep.Abs, Shrunk;
    var rest: Quantity := r.store[n].order.qty - qty;
    ShrinkCore(c, r, n, rest);
    ShrinkKeeps(c, r, n, rest);
    ShrunkKeepsCount(r, n, rest);
    ShrunkOnlyLevel(r, n, rest);
    FrontShrinks(a, BookRep.Abs(r).On(a.side.Opposite()), qty, trade);
  }

  lemma FullFill(c: Config, r: Rep, r': Rep, a: Aggressor, l: nat, n: nat, qty: Quantity, trade: Trade)
    requires Core(c, r) && Counted(r)
    requires l < c.numLevels == |r.Queues(a.side.Opposite())| == |r.Levels(a.side.Opposite())|
    requires r.Queues(a.side.Opposite())[l] != [] && r.Queues(a.side.Opposite())[l][0] == n
    requires n < |r.store| && r.store[n].Live? && r.store[n].order.qty <= qty
    requires Dropped(r, r', a.side.Opposite(), l, 0)
    requires var os := BookRep.Abs(r).On(a.side.Opposite()); os != [] && os[0] == View(r.store, n)
    requires trade == Fill(a, View(r.store, n), r.store[n].order.qty)
    ensures var s := a.side.Opposite();
      && Core(c, r') && Counted(r') && OnlyLevel(r, r', s, l)
      && BookRep.Abs(r').On(a.side) == BookRep.Abs(r).On(a.side)
      && FilledFront(a, BookRep.Abs(r).On(s), qty, BookRep.Abs(r').On(s), qty - r.store[n].order.qty, trade)
  {
    hide Core, Counted, BookRep.Abs, Dropped;
    DropKeeps(c, r, r', a.side.Opposite(), l, 0);
    DroppedOnlyLevel(r, r', a.side.Opposite(), l);
    FrontGoes(a, BookRep.Abs(r).On(a.side.Opposite()), qty, trade);
  }

  /** From r to r' the head n of level l on side s gave up fill shares, and left if those were all it had. */
  ghost predicate HeadFilled(r: Rep, r': Rep, s: Side, l: nat, n: nat, fill: Quantity)
    requires l < |r.Queues(s)| == |r.Levels(s)| && r.Queues(s)[l] != [] && r.Queues(s)[l][0] == n
    requires n < |r.store| && r.store[n].Live? && r.store[n].order.side == s && r.store[n].order.levelIdx == l
    requires fill <= r.store[n].order.qty
  {
    if fill < r.store[n].order.qty then r' == Shrunk(r, n, r.store[n].order.qty - fill) else Dropped(r, r', s, l, 0)
  }

  /** Lowering the head's quantity and its level's total is all that a fill short of its quantity does. */
  lemma HeadStays(r: Rep, r': Rep, s: Side, l: nat, n: nat, fill: Quantity)
    requires l < |r.Queues(s)| == |r.Levels(s)| && r.Queues(s)[l] != [] && r.Queues(s)[l][0] == n
    requires n < |r.store| && r.store[n].Live? && r.store[n].order.side == s && r.store[n].order.levelIdx == l
    requires fill < r.store[n].order.qty && r'.free == r.free && r'.index == r.index
    requires r'.store == r.store[n := Live(r.store[n].order.(qty := r.store[n].order.qty - fill))]
    requires r'.Levels(s) == r.Levels(s)[l := Lowered(r.Levels(s)[l], fill)]
    requires r'.Levels(s.Opposite()) == r.Levels(s.Opposite()) && r'.bidQ == r.bidQ && r'.askQ == r.askQ
    ensures HeadFilled(r, r', s, l, n, fill)
  {
    var had := r.store[n].order.qty;
    assert had - (had - fill) == fill;
  }

  lemma HeadGoes(r: Rep, r': Rep, s: Side, l: nat, n: nat, fill: Quantity)
    requires l < |r.Queues(s)| == |r.Levels(s)| && r.Queues(s)[l] != [] && r.Queues(s)[l][0] == n
    requires n < |r.store| && r.store[n].Live? && r.store[n].order.side == s && r.store[n].order.levelIdx == l
    requires fill == r.store[n].order.qty && Dropped(r, r', s, l, 0)
    ensures HeadFilled(r, r', s, l, n, fill)
  {
  }

  lemma HeadFilledIs(c: Config, r: Rep, r': Rep, a: Aggressor, l: nat, n: nat, qty: Quantity, trade: Trade)
    requires Core(c, r) && Counted(r)
    requires l < c.numLevels == |r.Queues(a.side.Opposite())| == |r.Levels(a.side.Opposite())|
    requires r.Queues(a.side.Opposite())[l] != [] && r.Queues(a.side.Opposite())[l][0] == n
    requires n < |r.store| && r.store[n].Live? && qty > 0
    requires r.store[n].order.side == a.side.Opposite() && r.store[n].order.levelIdx == l
    requires HeadFilled(r, r', a.side.Opposite(), l, n, Min(qty, r.store[n].order.qty))
    requires var os := BookRep.Abs(r).On(a.side.Opposite()); os != [] && os[0] == View(r.store, n)
    requires trade == Fill(a, View(r.store, n), Min(qty, r.store[n].order.qty))
    ensures var s := a.side.Opposite();
      && Core(c, r') && Counted(r') && OnlyLevel(r, r', s, l)
      && BookRep.Abs(r').On(a.side) == BookRep.Abs(r).On(a.side)
      && FilledFront(a, BookRep.Abs(r).On(s), qty, BookRep.Abs(r').On(s), qty - Min(qty, r.store[n].order.qty), trade)
  {
    hide Core, Counted, BookRep.Abs, Dropped, Shrunk, FilledFront, OnlyLevel;
    if qty < r.store[n].order.qty {
      PartFill(c, r, a, l, n, qty, trade);
    } else {
      FullFill(c, r, r', a, l, n, qty, trade);
    }
  }

  /** An order that reaches nobody matches nothing. */
  lemma NoMatch(b: Book, r: Request)
    requires r.kind.Limit? && !NaiveBook.WouldCross(b, r.side, r.price)
    ensures var m := MatchRequest(b, r);
      m.remaining == r.qty && m.trades == [] && b.With(r.side.Opposite(), m.rest) == b
    ensures MatchEdits(b, r) == []
  {
  }

  lemma MatchRequestLeaves(b: Book, r: Request)
    ensures MatchRequest(b, r).remaining <= r.qty
  {
    MatchLeaves(Aggressor(r.id, r.side, r.ts), b.On(r.side.Opposite()), RequestBound(r), r.qty);
  }

  lemma LookupLocates(b: Book, id: OrderId)
    ensures Lookup(b, id).Some? <==> Locate(b, id).Some?
  {
  }

  /** When a request's remainder rests, the naive specification vouches for a slot and a fresh id. */
  lemma RestRoom(c: Config, b: Book, r: Request)
    requires !BadRequest(c, b, r) && !KilledEarly(b, r) && MatchRequest(b, r).remaining > 0 && !DropsRemainder(r)
    ensures var matched := b.With(r.side.Opposite(), MatchRequest(b, r).rest);
      && matched.Size() + 1 == NaiveBook.Submit(c, b, r).book.Size()
      && Lookup(matched, r.id) == None
  {
    var m, s := MatchRequest(b, r), r.side;
    var matched := b.With(s.Opposite(), m.rest);
    InsertLength(s, matched.On(s), Resting(r.id, r.price, m.remaining));
    AbsentIndex(b.bids, r.id);
    AbsentIndex(b.asks, r.id);
    MatchKeepsAbsent(Aggressor(r.id, r.side, r.ts), b.On(s.Opposite()), RequestBound(r), r.qty, r.id);
    AbsentIndex(matched.bids, r.id);
    AbsentIndex(matched.asks, r.id);
  }

  /** An order that goes straight to the back of its queue. */
  predicate RestsAtOnce(c: Config, b: Book, r: Request) {
    && !BadRequest(c, b, r) && r.kind.Limit? && (r.tif.GTC? || r.tif.Day? || r.tif.PostOnly?)
    && !NaiveBook.WouldCross(b, r.side, r.price)
  }

  lemma RestingMeetsNobody(c: Config, b: Book, r: Request)
    ensures RestsAtOnce(c, b, r) ==> MatchRequest(b, r).remaining == r.qty > 0
  {
  }
}
