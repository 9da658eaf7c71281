/** What one call does and reports, said field by field of its trades, its result and the orders that rest
    afterwards. */
module NaiveReports {
  import opened LobTypes
  import opened NaiveBook
  import opened NaiveLaws
  import opened NaiveRuns

  // ----- the match phase ------------------------------------------------------------

  /** The j-th trade is with the j-th order of the queue, at its price, for its whole size or what is still wanted. */
  lemma {:induction false} TradeFields(a: Aggressor, os: seq<Resting>, bound: Bound, qty: Quantity, j: nat)
    requires Positive(os) && j < |Match(a, os, bound, qty).trades|
    ensures j < |os| && Total(os[..j]) < qty && Reaches(a.side, bound, os[j].price)
    ensures var t := Match(a, os, bound, qty).trades[j];
      && t.restingId == os[j].id && t.aggressorId == a.id && t.aggressorSide == a.side && t.ts == a.ts
      && t.price == os[j].price && t.quantity == Min(os[j].qty, qty - Total(os[..j]))
  {
    assert os[..0] == [];
    if j > 0 {
      TradeFields(a, os[1..], bound, qty - os[0].qty, j - 1);
      assert os[..j][1..] == os[1..][..j - 1] && os[..j][0] == os[0];
    }
  }

  /** The orders traded with leave the front of os, the last one only if it was emptied. */
  ghost predicate Taken(os: seq<Resting>, trades: seq<Trade>, rest: seq<Resting>) {
    var n := |trades|;
    && n <= |os|
    && rest == (if n > 0 && trades[n - 1].quantity < os[n - 1].qty
                then [os[n - 1].(qty := os[n - 1].qty - trades[n - 1].quantity)] else []) + os[n..]
  }

  /** Matching takes what it trades, and goes on as long as anything is wanted and the next order is in reach. */
  lemma MatchTakes(a: Aggressor, os: seq<Resting>, bound: Bound, qty: Quantity)
    requires Positive(os)
    ensures var m := Match(a, os, bound, qty);
      && Taken(os, m.trades, m.rest) && m.remaining == qty - Traded(m.trades)
      && (m.remaining > 0 ==>
            && |m.trades| <= |os| && m.rest == os[|m.trades|..]
            && (m.rest == [] || !Reaches(a.side, bound, m.rest[0].price)))
  {
    hide Match, Traded, Total, Reaches;
    MatchConserves(a, os, bound, qty);
    var k := MatchShape(a, os, bound, qty);
    if |Match(a, os, bound, qty).trades| == k && k > 0 {
      assert Match(a, os, bound, qty).trades[k - 1].quantity == os[k - 1].qty;
    }
    assert [] + os[k..] == os[k..];
  }

  // ----- looking up, cancelling and reducing ------------------------------------------

  /** A lookup finds the order with the id, on the side where it rests, if there is one. */
  lemma LookupFinds(b: Book, id: OrderId, o: Resting)
    requires DistinctIds(b.bids) && DistinctIds(b.asks) && NoSharedIds(b)
    ensures Lookup(b, id) == Some((Buy, o)) <==> o in b.bids && o.id == id
    ensures Lookup(b, id) == Some((Sell, o)) <==> o in b.asks && o.id == id
  {
    if o in b.bids && o.id == id {
      var i :| 0 <= i < |b.bids| && b.bids[i] == o;
      assert Index(b.bids, id) == i;
    }
    if o in b.asks && o.id == id {
      var i :| 0 <= i < |b.asks| && b.asks[i] == o;
      assert Index(b.asks, id) == i;
      assert Index(b.bids, id) == |b.bids|;
    }
  }

  /** Cancel takes out the order with the id and nothing else. */
  lemma CancelExactly(b: Book, id: OrderId) returns (i: nat)
    ensures Lookup(b, id).None? ==> Cancel(b, id) == (b, false)
    ensures Lookup(b, id).Some? ==>
      var os := if Lookup(b, id).value.0.Buy? then b.bids else b.asks;
      && i < |os| && os[i] == Lookup(b, id).value.1 && os[i].id == id
      && Cancel(b, id) == (if Lookup(b, id).value.0.Buy? then Book(os[..i] + os[i + 1..], b.asks)
                           else Book(b.bids, os[..i] + os[i + 1..]), true)
  {
    i := if Lookup(b, id).Some? then Index(b.On(Lookup(b, id).value.0), id) else 0;
  }

  /** Reduce lowers the size of the order with the id, in its place, or takes it out if nothing would be left. */
  lemma ReduceExactly(b: Book, id: OrderId, amount: Quantity) returns (i: nat)
    ensures Lookup(b, id).None? ==> Reduce(b, id, amount) == (b, false)
    ensures Lookup(b, id).Some? ==>
      var os := if Lookup(b, id).value.0.Buy? then b.bids else b.asks;
      && i < |os| && os[i] == Lookup(b, id).value.1 && os[i].id == id
      && var os' := if os[i].qty <= amount then os[..i] + os[i + 1..]
                    else os[..i] + [Resting(id, os[i].price, os[i].qty - amount)] + os[i + 1..];
         Reduce(b, id, amount) == (if Lookup(b, id).value.0.Buy? then Book(os', b.asks) else Book(b.bids, os'), true)
  {
    hide Cancel, Resize, Index, Locate;
    i := CancelExactly(b, id);
    if Lookup(b, id).Some? && amount < Lookup(b, id).value.1.qty {
      var (s, o) := Lookup(b, id).value;
      i := ResizeExactly(b, id, o.qty - amount);
    }
  }

  lemma ResizeExactly(b: Book, id: OrderId, qty: Quantity) returns (i: nat)
    requires Lookup(b, id).Some?
    ensures var (s, o) := Lookup(b, id).value;
      var os := b.On(s);
      && i < |os| && os[i] == o && o.id == id
      && Resize(os, id, qty) == os[..i] + [Resting(id, o.price, qty)] + os[i + 1..]
  {
    var os := b.On(Lookup(b, id).value.0);
    i := Index(os, id);
    hide Index;
    assert os[i := os[i].(qty := qty)] == os[..i] + [Resting(id, os[i].price, qty)] + os[i + 1..];
  }

  /** After a cancel the id is gone and every other id finds what it found before. */
  lemma LookupAfterCancel(c: Config, b: Book, id: OrderId, x: OrderId)
    requires WellFormed(c, b)
    ensures WellFormed(c, Cancel(b, id).0)
    ensures Lookup(Cancel(b, id).0, x) == if x == id then None else Lookup(b, x)
  {
    hide WellFormed, Cancel, Lookup;
    CancelKeeps(c, b, id);
    AbsentFromBoth(Cancel(b, id).0, id);
    if Lookup(b, id).Some? {
      var i := CancelExactly(b, id);
      var s := Lookup(b, id).value.0;
      if x != id { LookupWithout(c, b, Cancel(b, id).0, s, i, x); }
    } else {
      var i := CancelExactly(b, id);
    }
  }

  lemma LookupWithout(c: Config, b: Book, b': Book, s: Side, i: nat, x: OrderId)
    requires WellFormed(c, b) && WellFormed(c, b') && i < |b.On(s)| && b.On(s)[i].id != x
    requires b' == b.With(s, b.On(s)[..i] + b.On(s)[i + 1..])
    ensures Lookup(b', x) == Lookup(b, x)
  {
    hide Lookup, Sorted, Sound, Uncrossed, DistinctIds, NoSharedIds;
    var os := b.On(s);
    assert os == os[..i] + [os[i]] + os[i + 1..];
    SameOrders(b, b', x);
  }

  /** Books that hold the same orders under an id find the same. */
  lemma SameOrders(b: Book, b': Book, x: OrderId)
    requires DistinctIds(b.bids) && DistinctIds(b.asks) && NoSharedIds(b)
    requires DistinctIds(b'.bids) && DistinctIds(b'.asks) && NoSharedIds(b')
    requires forall o: Resting :: o.id == x ==> (o in b.bids <==> o in b'.bids) && (o in b.asks <==> o in b'.asks)
    ensures Lookup(b', x) == Lookup(b, x)
  {
    hide Lookup, DistinctIds, NoSharedIds;
    if Lookup(b, x).Some? { FindsToo(b, b', x); }
    if Lookup(b', x).Some? { FindsToo(b', b, x); }
  }

  lemma FindsToo(b: Book, b': Book, x: OrderId)
    requires DistinctIds(b.bids) && DistinctIds(b.asks) && NoSharedIds(b)
    requires DistinctIds(b'.bids) && DistinctIds(b'.asks) && NoSharedIds(b')
    requires forall o: Resting :: o.id == x ==> (o in b.bids ==> o in b'.bids) && (o in b.asks ==> o in b'.asks)
    requires Lookup(b, x).Some?
    ensures Lookup(b', x) == Lookup(b, x)
  {
    hide Lookup, DistinctIds, NoSharedIds;
    var (s, o) := Lookup(b, x).value;
    LookupFinds(b, x, o);
    LookupFinds(b', x, o);
    assert if s.Buy? then Lookup(b, x) == Some((Buy, o)) else Lookup(b, x) == Some((Sell, o));
  }

  /** After a reduce the id finds its order, smaller by the amount, or nothing if that was all of it; every other id
      finds what it found before. */
  lemma LookupAfterReduce(c: Config, b: Book, id: OrderId, amount: Quantity, x: OrderId)
    requires WellFormed(c, b)
    ensures WellFormed(c, Reduce(b, id, amount).0)
    ensures Lookup(Reduce(b, id, amount).0, x) ==
      match Lookup(b, x)
      case None => None
      case Some((s, o)) =>
        if x != id then Some((s, o))
        else if o.qty <= amount then None
        else Some((s, Resting(id, o.price, o.qty - amount)))
  {
    hide WellFormed, Cancel, Resize, Lookup;
    ReduceKeeps(c, b, id, amount);
    LookupAfterCancel(c, b, id, x);
    if Lookup(b, id).Some? && amount < Lookup(b, id).value.1.qty {
      var (s, o) := Lookup(b, id).value;
      LookupResized(c, b, id, o.qty - amount, x);
    }
  }

  lemma LookupResized(c: Config, b: Book, id: OrderId, qty: Quantity, x: OrderId)
    requires WellFormed(c, b) && Lookup(b, id).Some?
    requires WellFormed(c, b.With(Lookup(b, id).value.0, Resize(b.On(Lookup(b, id).value.0), id, qty)))
    ensures var (s, o) := Lookup(b, id).value;
      Lookup(b.With(s, Resize(b.On(s), id, qty)), x) ==
        if x == id then Some((s, Resting(id, o.price, qty))) else Lookup(b, x)
  {
    hide Lookup, Resize, Sorted, Sound, Uncrossed, DistinctIds, NoSharedIds;
    var (s, o) := Lookup(b, id).value;
    var i := ResizeExactly(b, id, qty);
    var b', os := b.With(s, Resize(b.On(s), id, qty)), b.On(s);
    assert os == os[..i] + [os[i]] + os[i + 1..];
    if x == id { LookupFinds(b', id, Resting(id, o.price, qty)); } else { SameOrders(b, b', x); }
  }

  /** After an order with a fresh id joined a queue the id finds it, and every other id what it found before. */
  lemma LookupAfterInsert(c: Config, b: Book, s: Side, o: Resting, x: OrderId)
    requires WellFormed(c, b) && Locate(b, o.id).None?
    requires o.id != 0 && o.qty > 0 && c.InRange(o.price) && !NaiveBook.WouldCross(b, s, o.price)
    ensures var b' := b.With(s, Insert(s, b.On(s), o));
      WellFormed(c, b') && Lookup(b', x) == if x == o.id then Some((s, o)) else Lookup(b, x)
  {
    hide Lookup, Insert, Locate, Sorted, Sound, Uncrossed, DistinctIds, NoSharedIds, Reaches;
    InsertKeeps(c, b, s, o);
    var b' := b.With(s, Insert(s, b.On(s), o));
    var k := InsertPosition(s, b.On(s), o);
    assert b.On(s) == b.On(s)[..k] + b.On(s)[k..];
    if x == o.id { LookupFinds(b', x, o); } else { SameOrders(b, b', x); }
  }

  /** The best price of a side, -1 when nothing rests there. */
  lemma BestQuotes(c: Config, b: Book)
    requires WellFormed(c, b)
    ensures b.bids == [] ==> Best(b.bids) == -1
    ensures b.asks == [] ==> Best(b.asks) == -1
    ensures b.bids != [] ==> exists i :: 0 <= i < |b.bids| && b.bids[i].price == Best(b.bids)
    ensures b.asks != [] ==> exists i :: 0 <= i < |b.asks| && b.asks[i].price == Best(b.asks)
    ensures forall i :: 0 <= i < |b.bids| ==> b.bids[i].price <= Best(b.bids)
    ensures forall i :: 0 <= i < |b.asks| ==> Best(b.asks) <= b.asks[i].price
  {
    assert b.bids != [] ==> b.bids[0].price == Best(b.bids);
    assert b.asks != [] ==> b.asks[0].price == Best(b.asks);
    forall i | 0 <= i < |b.bids| ensures b.bids[i].price <= Best(b.bids) {
      if i > 0 { assert !Ahead(Buy, b.bids[i].price, b.bids[0].price); }
    }
    forall i | 0 <= i < |b.asks| ensures Best(b.asks) <= b.asks[i].price {
      if i > 0 { assert !Ahead(Sell, b.asks[i].price, b.asks[0].price); }
    }
  }

  // ----- submit -------------------------------------------------------------------------

  /** Every trade of a submit, field by field, within the request's limit. */
  lemma SubmitTrades(c: Config, b: Book, r: Request, j: nat)
    requires WellFormed(c, b) && j < |Submit(c, b, r).trades|
    ensures var os, t := if r.side.Buy? then b.asks else b.bids, Submit(c, b, r).trades[j];
      && j < |os| && Total(os[..j]) < r.qty
      && t.restingId == os[j].id && t.aggressorId == r.id && t.aggressorSide == r.side && t.ts == r.ts
      && t.price == os[j].price && t.quantity == Min(os[j].qty, r.qty - Total(os[..j]))
      && (r.kind.Limit? ==> if r.side.Buy? then t.price <= r.price else r.price <= t.price)
  {
    hide Match, BadRequest, KilledEarly;
    SoundPositive(c, b.On(r.side.Opposite()));
    TradeFields(Aggressor(r.id, r.side, r.ts), b.On(r.side.Opposite()), RequestBound(r), r.qty, j);
  }

  /** Nobody on this queue is within the request's limit; with no limit, nobody is left at all. */
  ghost predicate MeetsNobody(r: Request, os: seq<Resting>) {
    forall i :: 0 <= i < |os| ==>
      r.kind.Limit? && if r.side.Buy? then r.price < os[i].price else os[i].price < r.price
  }

  /** The trades took what they say off the other side, and whatever of the request remains meets nobody there. */
  ghost predicate Consumed(r: Request, os: seq<Resting>, trades: seq<Trade>, rest: seq<Resting>, remaining: Quantity) {
    Taken(os, trades, rest) && remaining == r.qty - Traded(trades) && (remaining > 0 ==> MeetsNobody(r, rest))
  }

  /** What a submit that is neither rejected nor killed leaves of the other side. */
  lemma SubmitConsumes(c: Config, b: Book, r: Request)
    requires WellFormed(c, b) && !Submit(c, b, r).result.status.Rejected?
    requires r.tif.FOK? || r.tif.PostOnly? ==> !Submit(c, b, r).result.status.Cancelled?
    ensures var e := Submit(c, b, r);
      if r.side.Buy? then Consumed(r, b.asks, e.trades, e.book.asks, e.result.remaining)
      else Consumed(r, b.bids, e.trades, e.book.bids, e.result.remaining)
  {
    hide Insert, WellFormed, MatchRequest, Submit, BadRequest, CanFill, Consumed;
    RejectedUnchanged(c, b, r);
    NotKilled(c, b, r);
    RequestLeft(c, b, r);
    SubmitMatches(c, b, r);
  }

  lemma NotKilled(c: Config, b: Book, r: Request)
    requires !BadRequest(c, b, r) && (r.tif.FOK? || r.tif.PostOnly? ==> !Submit(c, b, r).result.status.Cancelled?)
    ensures !KilledEarly(b, r)
  {
    hide MatchRequest, CanFill, Insert;
  }

  lemma SubmitMatches(c: Config, b: Book, r: Request)
    requires !BadRequest(c, b, r) && !KilledEarly(b, r)
    ensures var e, m := Submit(c, b, r), MatchRequest(b, r);
      e.trades == m.trades && e.result.remaining == m.remaining && e.book.On(r.side.Opposite()) == m.rest
  {
    hide Match, Insert, BadRequest, KilledEarly, MatchRequest;
  }

  lemma RequestLeft(c: Config, b: Book, r: Request)
    requires WellFormed(c, b)
    ensures var m := MatchRequest(b, r);
      Consumed(r, if r.side.Buy? then b.asks else b.bids, m.trades, m.rest, m.remaining)
  {
    hide Match, Sorted, DistinctIds, NoSharedIds, Uncrossed, Sound, Taken, Traded, MeetsNobody;
    var s := r.side.Opposite();
    var os, m := b.On(s), MatchRequest(b, r);
    SoundPositive(c, os);
    MatchTakes(Aggressor(r.id, r.side, r.ts), os, RequestBound(r), r.qty);
    if m.remaining > 0 {
      SortedFrom(s, os, |m.trades|);
      FrontMeetsNobody(r, m.rest);
    }
  }

  lemma FrontMeetsNobody(r: Request, os: seq<Resting>)
    requires Sorted(r.side.Opposite(), os) && (os == [] || !Reaches(r.side, RequestBound(r), os[0].price))
    ensures MeetsNobody(r, os)
  {
    hide Liquidity, Sorted;
    OutOfReach(r.side, RequestBound(r), os);
  }

  lemma SortedFrom(s: Side, os: seq<Resting>, n: nat)
    requires Sorted(s, os) && n <= |os|
    ensures Sorted(s, os[n..])
  {
  }

  /** The status of a submit that is not rejected, by its type, its time in force and whom it could trade with. */
  lemma SubmitStatus(c: Config, b: Book, r: Request)
    requires WellFormed(c, b) && !Submit(c, b, r).result.status.Rejected?
    ensures var e, os := Submit(c, b, r), if r.side.Buy? then b.asks else b.bids;
      var meets := exists i :: 0 <= i < |os| && if r.side.Buy? then os[i].price <= r.price else r.price <= os[i].price;
      && e.result.filled + e.result.remaining == r.qty && e.result.filled == Traded(e.trades)
      && (e.result.status.FullyFilled? <==> e.result.filled == r.qty)
      && (e.result.status.PartiallyFilled? <==> 0 < e.result.filled < r.qty)
      && (e.result.status.Accepted? <==>
            e.result.filled == 0 && r.kind.Limit? && (r.tif.GTC? || r.tif.Day? || (r.tif.PostOnly? && !meets)))
      && (e.result.status.Cancelled? <==>
            e.result.filled == 0 && (r.kind.Market? || r.tif.IOC? || r.tif.FOK? || (r.tif.PostOnly? && meets)))
      && (r.tif.FOK? || r.tif.PostOnly? ==> e.result.filled == 0 || (r.tif.FOK? && e.result.filled == r.qty))
  {
    hide Match, CanFill, Sorted, DistinctIds, NoSharedIds, Uncrossed, Sound;
    RejectedUnchanged(c, b, r);
    SubmitReports(c, b, r);
    if r.tif.FOK? { FokAllOrNothing(c, b, r); }
    MeetsFront(r.side, b.On(r.side.Opposite()), r.price);
    if r.kind.Limit? && !NaiveBook.WouldCross(b, r.side, r.price) { NothingTraded(b, r); }
  }

  /** If anyone on a sorted queue can be traded with, the front order can. */
  lemma MeetsFront(s: Side, os: seq<Resting>, price: Price)
    requires Sorted(s.Opposite(), os)
    ensures (exists i :: 0 <= i < |os| && if s.Buy? then os[i].price <= price else price <= os[i].price)
       <==> os != [] && Reaches(s, UpTo(price), os[0].price)
  {
    if os == [] || !Reaches(s, UpTo(price), os[0].price) { OutOfReach(s, UpTo(price), os); }
  }

  lemma NothingTraded(b: Book, r: Request)
    requires r.kind.Limit? && !NaiveBook.WouldCross(b, r.side, r.price)
    ensures MatchRequest(b, r).trades == [] && MatchRequest(b, r).remaining == r.qty
  {
  }

  /** Whether anything of a submit rests, and what: on its own side, under its id, at its price, with what was not
      filled, behind exactly the orders at its price or better. k is its place. */
  lemma SubmitRestsOrNot(c: Config, b: Book, r: Request) returns (k: nat)
    requires WellFormed(c, b) && !Submit(c, b, r).result.status.Rejected?
    ensures var e := Submit(c, b, r);
      var os, os', o := if r.side.Buy? then b.bids else b.asks, if r.side.Buy? then e.book.bids else e.book.asks,
        Resting(r.id, r.price, e.result.remaining);
      if r.kind.Limit? && !r.tif.IOC? && e.result.remaining > 0 && !e.result.status.Cancelled? then
        && Lookup(e.book, r.id) == Some((r.side, o))
        && k <= |os| && os' == os[..k] + [o] + os[k..]
        && (forall j :: 0 <= j < k ==> if r.side.Buy? then r.price <= os[j].price else os[j].price <= r.price)
        && (forall j :: k <= j < |os| ==> if r.side.Buy? then os[j].price < r.price else r.price < os[j].price)
      else Lookup(e.book, r.id).None? && os' == os
  {
    hide Match, CanFill, Insert, Index, WellFormed;
    RejectedUnchanged(c, b, r);
    SubmitReports(c, b, r);
    AbsentFromBoth(b, r.id);
    k := 0;
    if !KilledEarly(b, r) {
      AcceptedRests(c, b, r);
      if r.kind.Limit? && !r.tif.IOC? && Submit(c, b, r).result.remaining > 0 {
        var o := Resting(r.id, r.price, Submit(c, b, r).result.remaining);
        k := InsertAt(c, b, r.side, o);
      }
    }
  }

  /** The place InsertPriority speaks of, with the comparisons written out. */
  lemma InsertAt(c: Config, b: Book, s: Side, o: Resting) returns (k: nat)
    requires WellFormed(c, b) && Locate(b, o.id).None?
    ensures var os := if s.Buy? then b.bids else b.asks;
      && k <= |os| && Insert(s, os, o) == os[..k] + [o] + os[k..]
      && (forall j :: 0 <= j < k ==> if s.Buy? then o.price <= os[j].price else os[j].price <= o.price)
      && (forall j :: k <= j < |os| ==> if s.Buy? then os[j].price < o.price else o.price < os[j].price)
  {
    hide Insert, Index, Sound, DistinctIds, NoSharedIds, Uncrossed;
    AbsentFromBoth(b, o.id);
    InsertPriority(s, b.On(s), o);
    k := Index(Insert(s, b.On(s), o), o.id);
  }

  /** What each operation replies: a cancel and a reduce whether the id rested, a submit and a modify their result. */
  lemma StepReplies(c: Config, b: Book, op: Op)
    ensures match op
      case DoSubmit(r) =>
        var s := Submit(c, b, r); Step(c, b, op) == Effect(s.book, Report(s.result), s.trades)
      case DoCancel(id) => Step(c, b, op) == Effect(Cancel(b, id).0, Done(Lookup(b, id).Some?), [])
      case DoReduce(id, amount) => Step(c, b, op) == Effect(Reduce(b, id, amount).0, Done(Lookup(b, id).Some?), [])
      case DoModify(id, qty, price, ts) =>
        var s := Modify(c, b, id, qty, price, ts); Step(c, b, op) == Effect(s.book, Report(s.result), s.trades)
  {
    hide Submit, Modify, Resize, Remove;
  }

  // ----- modify -------------------------------------------------------------------------

  /** At the same price and no larger, a modify only changes the order's size, in its place. */
  lemma ModifyInPlace(c: Config, b: Book, id: OrderId, qty: Quantity, price: Price, ts: Timestamp) returns (i: nat)
    requires Lookup(b, id).Some? && price == Lookup(b, id).value.1.price && 0 < qty <= Lookup(b, id).value.1.qty
    ensures var os := if Lookup(b, id).value.0.Buy? then b.bids else b.asks;
      && i < |os| && os[i].id == id
      && var os' := os[..i] + [Resting(id, price, qty)] + os[i + 1..];
         Modify(c, b, id, qty, price, ts) ==
           Outcome(if Lookup(b, id).value.0.Buy? then Book(os', b.asks) else Book(b.bids, os'),
                   SubmitResult(Accepted, 0, qty), [])
  {
    hide Resize, Index, Locate;
    i := ResizeExactly(b, id, qty);
  }

  /** Modify is otherwise a cancel and a submit; the other side is as it was. */
  lemma ModifyResubmits(c: Config, b: Book, id: OrderId, qty: Quantity, price: Price, ts: Timestamp)
    requires WellFormed(c, b) && Lookup(b, id).Some?
    requires !(price == Lookup(b, id).value.1.price && 0 < qty <= Lookup(b, id).value.1.qty)
    ensures var b', s := Cancel(b, id).0, Lookup(b, id).value.0;
      && Modify(c, b, id, qty, price, ts) == Submit(c, b', Request(id, s, Limit, GTC, price, qty, ts))
      && WellFormed(c, b') && Locate(b', id).None? && b'.On(s.Opposite()) == b.On(s.Opposite())
  {
    hide Submit, WellFormed, Remove;
    CancelKeeps(c, b, id);
  }

  /** Every trade of a modify, field by field: the order trades under its own id, on its own side, at this call's time,
      within the new price. */
  lemma ModifyTrades(c: Config, b: Book, id: OrderId, qty: Quantity, price: Price, ts: Timestamp, j: nat)
    requires WellFormed(c, b) && j < |Modify(c, b, id, qty, price, ts).trades|
    ensures Lookup(b, id).Some?
    ensures var s, t := Lookup(b, id).value.0, Modify(c, b, id, qty, price, ts).trades[j];
      var os := if s.Buy? then b.asks else b.bids;
      && j < |os| && Total(os[..j]) < qty
      && t.restingId == os[j].id && t.aggressorId == id && t.aggressorSide == s && t.ts == ts
      && t.price == os[j].price && t.quantity == Min(os[j].qty, qty - Total(os[..j]))
      && (if s.Buy? then t.price <= price else price <= t.price)
  {
    hide Submit, WellFormed, Cancel, Lookup, Total, Min;
    var s, b' := Lookup(b, id).value.0, Cancel(b, id).0;
    ModifyResubmits(c, b, id, qty, price, ts);
    SubmitTrades(c, b', Request(id, s, Limit, GTC, price, qty, ts), j);
  }

  /** What a modify not done in place trades and leaves: all it can up to the new price, and the rest under its id, on
      its side, at the new price, behind exactly the orders at that price or better. The order was i-th, and is k-th
      of the others. */
  lemma ModifyRests(c: Config, b: Book, id: OrderId, qty: Quantity, price: Price, ts: Timestamp)
    returns (i: nat, k: nat)
    requires WellFormed(c, b) && Lookup(b, id).Some?
    requires !(price == Lookup(b, id).value.1.price && qty <= Lookup(b, id).value.1.qty)
    requires qty > 0 && c.basePrice <= price < c.basePrice + c.numLevels
    ensures var e, s := Modify(c, b, id, qty, price, ts), Lookup(b, id).value.0;
      var os, os', opp := if s.Buy? then b.bids else b.asks, if s.Buy? then e.book.bids else e.book.asks,
        if s.Buy? then b.asks else b.bids;
      var o := Resting(id, price, e.result.remaining);
      && Traded(e.trades) == Min(qty, Liquidity(s, UpTo(price), opp))
      && e.result.filled == Traded(e.trades) && e.result.remaining == qty - e.result.filled
      && e.result.status == (if e.result.filled == 0 then Accepted
                             else if e.result.filled == qty then FullyFilled else PartiallyFilled)
      && i < |os| && os[i].id == id
      && var others := os[..i] + os[i + 1..];
         if e.result.remaining == 0 then Lookup(e.book, id).None? && os' == others
         else
           && Lookup(e.book, id) == Some((s, o))
           && k <= |others| && os' == others[..k] + [o] + others[k..]
           && (forall j :: 0 <= j < k ==> if s.Buy? then price <= others[j].price else others[j].price <= price)
           && (forall j :: k <= j < |others| ==> if s.Buy? then others[j].price < price else price < others[j].price)
  {
    hide WellFormed, Match, CanFill, Cancel, Lookup, Index;
    var s, b' := Lookup(b, id).value.0, Cancel(b, id).0;
    var r := Request(id, s, Limit, GTC, price, qty, ts);
    ModifyResubmits(c, b, id, qty, price, ts);
    i := CancelExactly(b, id);
    IdIsReal(c, b, id);
    TradesAllItCan(c, b', r);
    RejectedUnchanged(c, b', r);
    k := ReplacedRests(c, b', r);
  }

  lemma IdIsReal(c: Config, b: Book, id: OrderId)
    requires WellFormed(c, b) && Lookup(b, id).Some?
    ensures id != 0
  {
  }

  /** A GTC limit order trades with everything in reach. */
  lemma TradesAllItCan(c: Config, b: Book, r: Request)
    requires WellFormed(c, b) && !BadRequest(c, b, r) && r.kind.Limit? && r.tif.GTC?
    ensures Traded(Submit(c, b, r).trades) == Min(r.qty, Liquidity(r.side, UpTo(r.price), b.On(r.side.Opposite())))
  {
    MatchIsGreedy(Aggressor(r.id, r.side, r.ts), b.On(r.side.Opposite()), UpTo(r.price), r.qty);
  }

  lemma ReplacedRests(c: Config, b: Book, r: Request) returns (k: nat)
    requires WellFormed(c, b) && !Submit(c, b, r).result.status.Rejected? && r.kind.Limit? && r.tif.GTC?
    ensures var e := Submit(c, b, r);
      var os, os', o := if r.side.Buy? then b.bids else b.asks, if r.side.Buy? then e.book.bids else e.book.asks,
        Resting(r.id, r.price, e.result.remaining);
      && e.result.filled == Traded(e.trades) && e.result.remaining == r.qty - e.result.filled
      && e.result.status == (if e.result.filled == 0 then Accepted
                             else if e.result.filled == r.qty then FullyFilled else PartiallyFilled)
      && if e.result.remaining == 0 then Lookup(e.book, r.id).None? && os' == os
         else
           && Lookup(e.book, r.id) == Some((r.side, o))
           && k <= |os| && os' == os[..k] + [o] + os[k..]
           && (forall j :: 0 <= j < k ==> if r.side.Buy? then r.price <= os[j].price else os[j].price <= r.price)
           && (forall j :: k <= j < |os| ==> if r.side.Buy? then os[j].price < r.price else r.price < os[j].price)
  {
    hide WellFormed, Submit, Lookup;
    SubmitStatus(c, b, r);
    k := SubmitRestsOrNot(c, b, r);
  }
}
