/** What the engine is for, proved of the naive book on every input: greedy price-time matching,
    all-or-nothing FOK, an uncrossed book, conserved quantity, and the laws of modify. */
module NaiveLaws {
  import opened LobTypes
  import opened NaiveBook

  // ----- well-formed books --------------------------------------------------------

  ghost predicate Sorted(s: Side, os: seq<Resting>) {
    forall i, j :: 0 <= i < j < |os| ==> !Ahead(s, os[j].price, os[i].price)
  }

  ghost predicate Sound(c: Config, os: seq<Resting>) {
    forall i :: 0 <= i < |os| ==> os[i].id != INVALID_ORDER_ID && os[i].qty > 0 && c.InRange(os[i].price)
  }

  ghost predicate Uncrossed(b: Book) {
    forall i, j :: 0 <= i < |b.bids| && 0 <= j < |b.asks| ==> b.bids[i].price < b.asks[j].price
  }

  ghost predicate NoSharedIds(b: Book) {
    forall i, j :: 0 <= i < |b.bids| && 0 <= j < |b.asks| ==> b.bids[i].id != b.asks[j].id
  }

  ghost predicate WellFormed(c: Config, b: Book) {
    && Sorted(Buy, b.bids) && Sorted(Sell, b.asks)
    && Sound(c, b.bids) && Sound(c, b.asks)
    && DistinctIds(b.bids) && DistinctIds(b.asks) && NoSharedIds(b)
    && Uncrossed(b)
  }

  // ----- matching --------------------------------------------------------------------

  ghost predicate Positive(os: seq<Resting>) {
    forall i :: 0 <= i < |os| ==> os[i].qty > 0
  }

  /** What an aggressor bounded by `bound` could trade at most, wherever in the queue it rests. */
  function Liquidity(s: Side, bound: Bound, os: seq<Resting>): nat {
    if os == [] then 0
    else (if Reaches(s, bound, os[0].price) then os[0].qty else 0) + Liquidity(s, bound, os[1..])
  }

  /** The exact shape of a match: k orders are consumed whole, front first, then at most one in part;
      trades report exactly that, in that order; the suffix is untouched; and it stops only when the
      quantity is used up or the next order is out of reach. */
  ghost predicate Shape(a: Aggressor, os: seq<Resting>, bound: Bound, m: MatchResult, k: nat) {
    && k <= |os| && k <= |m.trades| <= k + 1
    && (forall j :: 0 <= j < k ==>
          && Reaches(a.side, bound, os[j].price)
          && m.trades[j] == Trade(os[j].id, a.id, os[j].price, os[j].qty, a.ts, a.side))
    && (|m.trades| == k ==>
          m.rest == os[k..] && (m.remaining == 0 || k == |os| || !Reaches(a.side, bound, os[k].price)))
    && (|m.trades| == k + 1 ==> m.remaining == 0 && PartlyFilled(a, os, bound, m, k))
  }

  ghost predicate PartlyFilled(a: Aggressor, os: seq<Resting>, bound: Bound, m: MatchResult, k: nat)
    requires |m.trades| == k + 1
  {
    && k < |os| && Reaches(a.side, bound, os[k].price)
    && 0 < m.trades[k].quantity < os[k].qty
    && m.trades[k] == Trade(os[k].id, a.id, os[k].price, m.trades[k].quantity, a.ts, a.side)
    && m.rest == [os[k].(qty := os[k].qty - m.trades[k].quantity)] + os[k + 1..]
  }

  lemma {:induction false} MatchShape(a: Aggressor, os: seq<Resting>, bound: Bound, qty: Quantity) returns (k: nat)
    requires Positive(os)
    ensures Shape(a, os, bound, Match(a, os, bound, qty), k)
  {
    if qty == 0 || os == [] || !Reaches(a.side, bound, os[0].price) || qty < os[0].qty {
      k := 0;
    } else {
      k := MatchShape(a, os[1..], bound, qty - os[0].qty);
      ShapeStep(a, os, bound, Match(a, os[1..], bound, qty - os[0].qty), k);
      k := k + 1;
    }
  }

  lemma ShapeStep(a: Aggressor, os: seq<Resting>, bound: Bound, m: MatchResult, k: nat)
    requires os != [] && Reaches(a.side, bound, os[0].price) && Shape(a, os[1..], bound, m, k)
    ensures Shape(a, os, bound, m.(trades := [Fill(a, os[0], os[0].qty)] + m.trades), k + 1)
  {
    var n := m.(trades := [Fill(a, os[0], os[0].qty)] + m.trades);
    assert os[1..][k..] == os[k + 1..];
    forall j | 0 <= j < k + 1
      ensures Reaches(a.side, bound, os[j].price)
      ensures n.trades[j] == Trade(os[j].id, a.id, os[j].price, os[j].qty, a.ts, a.side)
    {
      if j > 0 { assert os[j] == os[1..][j - 1]; }
    }
    if |m.trades| == k + 1 { assert os[1..][k] == os[k + 1] && os[1..][k + 1..] == os[k + 2..]; }
  }

  /** Quantity is neither made nor lost: what the trades say left both the queue and the aggressor. */
  lemma {:induction false} MatchConserves(a: Aggressor, os: seq<Resting>, bound: Bound, qty: Quantity)
    ensures var m := Match(a, os, bound, qty);
      Total(os) == Total(m.rest) + Traded(m.trades) && qty == m.remaining + Traded(m.trades)
  {
    if qty == 0 || os == [] || !Reaches(a.side, bound, os[0].price) {
    } else if qty < os[0].qty {
      var m := Match(a, os, bound, qty);
      assert m.rest[1..] == os[1..] && m.trades[1..] == [];
    } else {
      MatchConserves(a, os[1..], bound, qty - os[0].qty);
      var m := Match(a, os, bound, qty);
      assert m.trades[1..] == Match(a, os[1..], bound, qty - os[0].qty).trades;
    }
  }

  /** Out of reach at the front means out of reach everywhere behind. */
  lemma {:induction false} OutOfReach(s: Side, bound: Bound, os: seq<Resting>)
    requires Sorted(s.Opposite(), os)
    requires os != [] ==> !Reaches(s, bound, os[0].price)
    ensures Liquidity(s, bound, os) == 0
    ensures forall i :: 0 <= i < |os| ==> !Reaches(s, bound, os[i].price)
  {
    if os != [] {
      if |os| > 1 { assert !Ahead(s.Opposite(), os[1].price, os[0].price); }
      SortedTail(s.Opposite(), os);
      OutOfReach(s, bound, os[1..]);
      forall i | 0 <= i < |os| ensures !Reaches(s, bound, os[i].price) {
        if i > 0 { assert os[i] == os[1..][i - 1]; }
      }
    }
  }

  lemma SortedTail(s: Side, os: seq<Resting>)
    requires Sorted(s, os) && os != []
    ensures Sorted(s, os[1..])
  {
  }

  /** On a sorted queue a match trades all it can: the smaller of the quantity and everything the bound reaches. */
  lemma {:induction false} MatchIsGreedy(a: Aggressor, os: seq<Resting>, bound: Bound, qty: Quantity)
    requires Sorted(a.side.Opposite(), os)
    ensures Traded(Match(a, os, bound, qty).trades) == Min(qty, Liquidity(a.side, bound, os))
  {
    if os == [] {
    } else if !Reaches(a.side, bound, os[0].price) {
      OutOfReach(a.side, bound, os);
    } else if qty == 0 {
    } else if qty < os[0].qty {
      var m := Match(a, os, bound, qty);
      assert m.trades[1..] == [];
    } else {
      SortedTail(a.side.Opposite(), os);
      MatchIsGreedy(a, os[1..], bound, qty - os[0].qty);
      var m := Match(a, os, bound, qty);
      assert m.trades[1..] == Match(a, os[1..], bound, qty - os[0].qty).trades;
    }
  }

  // ----- fill or kill ---------------------------------------------------------------------

  /** The pre-check never says yes wrongly, whatever its 32-bit sums do. */
  lemma {:induction false} CanFillIsSound(s: Side, os: seq<Resting>, bound: Bound, qty: Quantity, acc: Quantity)
    requires CanFill(s, os, bound, qty, acc)
    ensures acc + Liquidity(s, bound, os) >= qty
  {
    var sum := Wrap32(acc + os[0].qty);
    if |os| > 1 && os[1].price == os[0].price {
      CanFillIsSound(s, os[1..], bound, qty, sum);
    } else if sum < qty {
      CanFillIsSound(s, os[1..], bound, qty, sum);
    }
  }

  /** As long as the reachable liquidity fits 32 bits, it says yes whenever there is enough. */
  lemma {:induction false} CanFillIsComplete(s: Side, os: seq<Resting>, bound: Bound, qty: Quantity, acc: Quantity)
    requires Sorted(s.Opposite(), os) && acc < qty
    requires acc + Liquidity(s, bound, os) < TWO_TO_THE_32
    ensures CanFill(s, os, bound, qty, acc) <==> acc + Liquidity(s, bound, os) >= qty
  {
    if os == [] {
    } else if !Reaches(s, bound, os[0].price) {
      OutOfReach(s, bound, os);
    } else {
      var sum := Wrap32(acc + os[0].qty);
      assert sum == acc + os[0].qty;
      SortedTail(s.Opposite(), os);
      if sum < qty {
        CanFillIsComplete(s, os[1..], bound, qty, sum);
      } else if |os| > 1 && os[1].price == os[0].price {
        CanFillReached(s, os[1..], bound, qty, sum);
      }
    }
  }

  lemma {:induction false} CanFillReached(s: Side, os: seq<Resting>, bound: Bound, qty: Quantity, acc: Quantity)
    requires os != [] && Reaches(s, bound, os[0].price) && acc >= qty
    requires acc + Liquidity(s, bound, os) < TWO_TO_THE_32
    ensures CanFill(s, os, bound, qty, acc)
  {
    if |os| > 1 && os[1].price == os[0].price { CanFillReached(s, os[1..], bound, qty, Wrap32(acc + os[0].qty)); }
  }

  /** k is the end of a price level the bound still reaches. */
  ghost predicate LevelEnd(s: Side, os: seq<Resting>, bound: Bound, k: nat) {
    && 0 < k <= |os| && (k == |os| || os[k].price != os[k - 1].price)
    && forall i :: 0 <= i < k ==> Reaches(s, bound, os[i].price)
  }

  ghost predicate EnoughAt(s: Side, os: seq<Resting>, bound: Bound, qty: Quantity, acc: Quantity, k: nat) {
    LevelEnd(s, os, bound, k) && Wrap32(acc + Total(os[..k])) >= qty
  }

  /** The exact verdict of the pre-check on any queue: yes iff at the end of some reachable level the
      running total, taken modulo 2^32, is at least the quantity. */
  lemma {:induction false} CanFillExactly(s: Side, os: seq<Resting>, bound: Bound, qty: Quantity, acc: Quantity)
    ensures CanFill(s, os, bound, qty, acc) <==> exists k: nat :: EnoughAt(s, os, bound, qty, acc, k)
  {
    if os != [] && Reaches(s, bound, os[0].price) {
      var rest, sum := os[1..], Wrap32(acc + os[0].qty);
      CanFillExactly(s, rest, bound, qty, sum);
      forall k: nat | k > 0 ensures EnoughAt(s, rest, bound, qty, sum, k) <==> EnoughAt(s, os, bound, qty, acc, k + 1) {
        EnoughLater(s, os, bound, qty, acc, k);
      }
      EnoughNow(s, os, bound, qty, acc);
      if k: nat :| EnoughAt(s, os, bound, qty, acc, k) && k > 1 {
        EnoughLater(s, os, bound, qty, acc, k - 1);
      }
    }
  }

  lemma EnoughNow(s: Side, os: seq<Resting>, bound: Bound, qty: Quantity, acc: Quantity)
    requires os != [] && Reaches(s, bound, os[0].price)
    ensures EnoughAt(s, os, bound, qty, acc, 1) <==>
      (|os| == 1 || os[1].price != os[0].price) && Wrap32(acc + os[0].qty) >= qty
  {
    assert os[..1][0] == os[0] && os[..1][1..] == [];
    assert Total(os[..1]) == os[0].qty + Total(os[..1][1..]);
  }

  lemma EnoughLater(s: Side, os: seq<Resting>, bound: Bound, qty: Quantity, acc: Quantity, k: nat)
    requires os != [] && Reaches(s, bound, os[0].price) && k > 0
    ensures EnoughAt(s, os[1..], bound, qty, Wrap32(acc + os[0].qty), k) <==> EnoughAt(s, os, bound, qty, acc, k + 1)
  {
    LevelEndLater(s, os, bound, k);
    var rest := os[1..];
    if k <= |rest| {
      hide LevelEnd;
      assert os[..k + 1][1..] == rest[..k];
      WrapSum(acc + os[0].qty, Total(rest[..k]));
    }
  }

  lemma LevelEndLater(s: Side, os: seq<Resting>, bound: Bound, k: nat)
    requires os != [] && Reaches(s, bound, os[0].price) && k > 0
    ensures LevelEnd(s, os[1..], bound, k) <==> LevelEnd(s, os, bound, k + 1)
  {
    hide Reaches;
    var rest := os[1..];
    if LevelEnd(s, rest, bound, k) {
      forall i | 0 <= i < k + 1 ensures Reaches(s, bound, os[i].price) { if i > 0 { assert os[i] == rest[i - 1]; } }
    }
    if LevelEnd(s, os, bound, k + 1) {
      forall i | 0 <= i < k ensures Reaches(s, bound, rest[i].price) { assert rest[i] == os[i + 1]; }
    }
  }

  /** Two resting orders whose sizes add up to 2^32 make the level total wrap to zero, and an FOK for one
      share is killed in front of 2^32 of them. */
  lemma FokKilledByOverflow(c: Config, r: Request)
    requires c.Valid() && c.InRange(5) && r == Request(3, Buy, Limit, FOK, 5, 1, 0)
    ensures var b := Book([], [Resting(1, 5, 0x8000_0000), Resting(2, 5, 0x8000_0000)]);
      && WellFormed(c, b) && Liquidity(Buy, UpTo(5), b.asks) == TWO_TO_THE_32
      && Submit(c, b, r) == Outcome(b, SubmitResult(Cancelled, 0, 1), [])
  {
    var os := [Resting(1, 5, 0x8000_0000), Resting(2, 5, 0x8000_0000)];
    assert os[1..] == [os[1]] && os[1..][1..] == [];
    assert Index(os, 3) == 2;
    assert CanFill(Buy, os[1..], UpTo(5), 1, 0x8000_0000) == CanFill(Buy, [], UpTo(5), 1, 0);
    assert Liquidity(Buy, UpTo(5), os) == 0x8000_0000 + Liquidity(Buy, UpTo(5), os[1..]);
  }

  /** Fill or kill: either every share trades at once or nothing happens; nothing ever rests. With
      reachable liquidity below 2^32 it is killed exactly when the liquidity is short. */
  lemma FokAllOrNothing(c: Config, b: Book, r: Request)
    requires WellFormed(c, b) && r.tif.FOK? && !BadRequest(c, b, r)
    ensures var e, os := Submit(c, b, r), b.On(r.side.Opposite());
      || (e == Outcome(b, SubmitResult(Cancelled, 0, r.qty), []))
      || (&& e.result == SubmitResult(FullyFilled, r.qty, 0)
          && Traded(e.trades) == r.qty && e.book.On(r.side) == b.On(r.side))
    ensures var e, os := Submit(c, b, r), b.On(r.side.Opposite());
      Liquidity(r.side, RequestBound(r), os) < TWO_TO_THE_32 ==>
        (e.result.status.Cancelled? <==> Liquidity(r.side, RequestBound(r), os) < r.qty)
  {
    var a, os, bound := Aggressor(r.id, r.side, r.ts), b.On(r.side.Opposite()), RequestBound(r);
    MatchIsGreedy(a, os, bound, r.qty);
    MatchConserves(a, os, bound, r.qty);
    if CanFill(r.side, os, bound, r.qty) { CanFillIsSound(r.side, os, bound, r.qty, 0); }
    if Liquidity(r.side, bound, os) < TWO_TO_THE_32 { CanFillIsComplete(r.side, os, bound, r.qty, 0); }
  }

  // ----- reports ----------------------------------------------------------------------------

  function RestingQty(b: Book, id: OrderId): nat {
    match Lookup(b, id)
    case None => 0
    case Some((s, o)) => o.qty
  }

  /** The result of an accepted submit adds up, agrees with the trades, and its status says which case it was: without
      a trade, an order that may rest is accepted, and one that may not, or must not do what it would, is cancelled. */
  lemma SubmitReports(c: Config, b: Book, r: Request)
    requires !BadRequest(c, b, r)
    ensures var e := Submit(c, b, r);
      && !e.result.status.Rejected?
      && e.result.filled + e.result.remaining == r.qty
      && e.result.filled == Traded(e.trades)
      && (e.result.status.FullyFilled? <==> e.result.remaining == 0)
      && (e.result.status.PartiallyFilled? <==> 0 < e.result.filled < r.qty)
      && (e.result.status.Accepted? <==>
            && e.result.filled == 0 && r.kind.Limit? && !r.tif.IOC?
            && (r.tif.FOK? ==>
                  if r.side.Buy? then CanFill(Buy, b.asks, UpTo(r.price), r.qty)
                  else CanFill(Sell, b.bids, UpTo(r.price), r.qty))
            && (r.tif.PostOnly? ==>
                  if r.side.Buy? then b.asks == [] || r.price < b.asks[0].price
                  else b.bids == [] || b.bids[0].price < r.price))
      && (e.result.status.Cancelled? <==> e.result.filled == 0 && !e.result.status.Accepted?)
  {
    MatchConserves(Aggressor(r.id, r.side, r.ts), b.On(r.side.Opposite()), RequestBound(r), r.qty);
  }

  /** A submit is rejected exactly for an order without quantity, without a real id, whose id rests already, or, for
      limit orders only, off the ladder; and then it changes nothing. */
  lemma RejectedUnchanged(c: Config, b: Book, r: Request)
    ensures Submit(c, b, r).result.status.Rejected? <==>
      || r.qty == 0 || r.id == 0
      || (exists i :: 0 <= i < |b.bids| && b.bids[i].id == r.id)
      || (exists i :: 0 <= i < |b.asks| && b.asks[i].id == r.id)
      || (r.kind.Limit? && (r.price < c.basePrice || c.basePrice + c.numLevels <= r.price))
    ensures Submit(c, b, r).result.status.Rejected? <==> BadRequest(c, b, r)
    ensures var e := Submit(c, b, r);
      e.result.status.Rejected? ==> e == Outcome(b, SubmitResult(Rejected, 0, 0), [])
  {
    if !BadRequest(c, b, r) { SubmitReports(c, b, r); }
    hide Match, CanFill, KilledEarly;
  }
}
