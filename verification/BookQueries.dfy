/** Walking the levels of a side best first: what the walk reads is what the abstract book says. */
module BookQueries {
  import opened LobTypes
  import opened OrderStore
  import opened NaiveBook
  import opened BookRep

  /** The orders of the levels ranked a and worse. */
  function From(store: seq<Slot>, s: Side, q: seq<seq<nat>>, a: nat): seq<Resting> {
    Rests(store, Chain(s, q, a, |q|))
  }

  predicate AllAt(os: seq<Resting>, p: Price) {
    forall i :: 0 <= i < |os| ==> os[i].price == p
  }

  predicate NoneAt(os: seq<Resting>, p: Price) {
    forall i :: 0 <= i < |os| ==> os[i].price != p
  }

  /** A level's orders, all at its price, come before everything worse. */
  lemma FromLevel(c: Config, store: seq<Slot>, s: Side, q: seq<seq<nat>>, l: nat)
    requires Placed(store, s, q) && OrdersOK(c, store) && l < |q| == c.numLevels && q[l] != []
    ensures var rank := Rank(s, |q|, l);
      && From(store, s, q, rank) == Rests(store, q[l]) + From(store, s, q, rank + 1)
      && From(store, s, q, rank)[0].price == Rests(store, q[l])[0].price == c.basePrice + l
      && AllAt(Rests(store, q[l]), Rests(store, q[l])[0].price)
      && NoneAt(From(store, s, q, rank + 1), Rests(store, q[l])[0].price)
  {
    var rank := Rank(s, |q|, l);
    assert Chain(s, q, rank, |q|) == q[l] + Chain(s, q, rank + 1, |q|);
    LevelPrices(c, store, s, q, l);
    WorsePrices(c, store, s, q, l);
  }

  lemma LevelTotals(c: Config, r: Rep, s: Side, l: nat)
    requires Core(c, r) && l < c.numLevels
    ensures |r.Queues(s)| == |r.Levels(s)| == c.numLevels
    ensures r.Levels(s)[l].total == Wrap32(Total(Rests(r.store, r.Queues(s)[l])))
    ensures r.Levels(s)[l].count == |r.Queues(s)[l]|
    ensures Placed(r.store, s, r.Queues(s)) && OrdersOK(c, r.store)
  {
    assert LevelOK(r.store, r.Levels(s)[l], r.Queues(s)[l]);
  }

  lemma LevelPrices(c: Config, store: seq<Slot>, s: Side, q: seq<seq<nat>>, l: nat)
    requires Placed(store, s, q) && OrdersOK(c, store) && l < |q|
    ensures forall i :: 0 <= i < |q[l]| ==> View(store, q[l][i]).price == c.basePrice + l
  {
    forall i | 0 <= i < |q[l]| ensures View(store, q[l][i]).price == c.basePrice + l { assert q[l][i] in q[l]; }
  }

  lemma WorsePrices(c: Config, store: seq<Slot>, s: Side, q: seq<seq<nat>>, l: nat)
    requires Placed(store, s, q) && OrdersOK(c, store) && l < |q| == c.numLevels
    ensures var w := From(store, s, q, Rank(s, |q|, l) + 1); forall i :: 0 <= i < |w| ==> w[i].price != c.basePrice + l
  {
    var w := From(store, s, q, Rank(s, |q|, l) + 1);
    forall i | 0 <= i < |w| ensures w[i].price != c.basePrice + l {
      ChainPlaced(store, s, q, Rank(s, |q|, l) + 1, |q|, i);
    }
  }

  /** With no orders ranked from a up to b, the walk may skip to b. */
  lemma FromSkip(store: seq<Slot>, s: Side, q: seq<seq<nat>>, a: nat, b: nat)
    requires a <= b <= |q|
    requires forall k :: a <= k < b ==> q[Rank(s, |q|, k)] == []
    ensures From(store, s, q, a) == From(store, s, q, b)
  {
    ChainSplit(s, q, a, b, |q|);
    ChainEmpty(s, q, a, b);
  }

  /** Rank order of set levels: skipping to the next member of the bitmap, or to the end. */
  lemma FromNext(store: seq<Slot>, s: Side, q: seq<seq<nat>>, members: set<nat>, best: nat, l: nat, next: nat)
    requires Edge(s, q, members, best) && l < |q|
    requires next == NO_BEST ==> forall m :: m in members ==> Rank(s, |q|, m) <= Rank(s, |q|, l)
    requires next != NO_BEST ==> next in members && Rank(s, |q|, l) < Rank(s, |q|, next)
    requires next != NO_BEST ==>
      forall m :: m in members && Rank(s, |q|, l) < Rank(s, |q|, m) ==> Rank(s, |q|, next) <= Rank(s, |q|, m)
    ensures next == NO_BEST ==> From(store, s, q, Rank(s, |q|, l) + 1) == []
    ensures next != NO_BEST ==> next < |q| && q[next] != []
    ensures next != NO_BEST ==> From(store, s, q, Rank(s, |q|, l) + 1) == From(store, s, q, Rank(s, |q|, next))
  {
    var n, a := |q|, Rank(s, |q|, l) + 1;
    var b := if next == NO_BEST then n else Rank(s, n, next);
    forall k | a <= k < b ensures q[Rank(s, n, k)] == [] {
      var m: nat := Rank(s, n, k);
      assert m in members <==> q[m] != [];
    }
    FromSkip(store, s, q, a, b);
  }

  // ----- can_fully_fill ---------------------------------------------------------------

  lemma {:induction false} CanFillGroup(s: Side, g: seq<Resting>, rest: seq<Resting>, bound: Bound, qty: Quantity,
      acc: Quantity)
    requires g != [] && AllAt(g, g[0].price) && Reaches(s, bound, g[0].price)
    requires rest != [] ==> rest[0].price != g[0].price
    ensures var sum := Wrap32(acc + Total(g));
      CanFill(s, g + rest, bound, qty, acc) == (sum >= qty || CanFill(s, rest, bound, qty, sum))
  {
    hide CanFill;
    var os := g + rest;
    if |g| == 1 {
      assert os[1..] == rest && Total(g[1..]) == 0;
      CanFillLast(s, os, bound, qty, acc);
    } else {
      assert os[1..] == g[1..] + rest && os[1] == g[1];
      CanFillGroup(s, g[1..], rest, bound, qty, Wrap32(acc + g[0].qty));
      WrapSum(acc + g[0].qty, Total(g[1..]));
      CanFillSame(s, os, bound, qty, acc);
    }
  }

  lemma CanFillSame(s: Side, os: seq<Resting>, bound: Bound, qty: Quantity, acc: Quantity)
    requires |os| > 1 && os[1].price == os[0].price && Reaches(s, bound, os[0].price)
    ensures CanFill(s, os, bound, qty, acc) == CanFill(s, os[1..], bound, qty, Wrap32(acc + os[0].qty))
  {
  }

  lemma CanFillLast(s: Side, os: seq<Resting>, bound: Bound, qty: Quantity, acc: Quantity)
    requires os != [] && (|os| > 1 ==> os[1].price != os[0].price) && Reaches(s, bound, os[0].price)
    ensures var sum := Wrap32(acc + os[0].qty);
      CanFill(s, os, bound, qty, acc) == (sum >= qty || CanFill(s, os[1..], bound, qty, sum))
  {
  }

  // ----- top_n and total_at --------------------------------------------------------------

  lemma {:induction false} FrontCountGroup(g: seq<Resting>, rest: seq<Resting>)
    requires g != [] && AllAt(g, g[0].price) && (rest != [] ==> rest[0].price != g[0].price)
    ensures FrontCount(g + rest) == |g|
  {
    var os := g + rest;
    if |g| == 1 {
      assert |os| == 1 || os[1] == rest[0];
    } else {
      assert os[1..] == g[1..] + rest;
      FrontCountGroup(g[1..], rest);
    }
  }

  lemma TopNGroup(g: seq<Resting>, rest: seq<Resting>, n: nat)
    requires g != [] && AllAt(g, g[0].price) && (rest != [] ==> rest[0].price != g[0].price) && n > 0
    ensures TopN(g + rest, n) == [LevelSnapshot(g[0].price, Wrap32(Total(g)), Wrap32(|g|))] + TopN(rest, n - 1)
  {
    FrontCountGroup(g, rest);
    assert (g + rest)[..|g|] == g && (g + rest)[|g|..] == rest;
  }

  lemma {:induction false} TotalAtAppend(a: seq<Resting>, b: seq<Resting>, p: Price)
    ensures TotalAt(a + b, p) == TotalAt(a, p) + TotalAt(b, p)
  {
    if a == [] { assert a + b == b; } else {
      assert (a + b)[1..] == a[1..] + b;
      TotalAtAppend(a[1..], b, p);
    }
  }

  lemma {:induction false} TotalAtAll(os: seq<Resting>, p: Price)
    ensures AllAt(os, p) ==> TotalAt(os, p) == Total(os)
    ensures NoneAt(os, p) ==> TotalAt(os, p) == 0
  {
    if os != [] { TotalAtAll(os[1..], p); }
  }

  /** The total of a level is the total of the book at its price. */
  lemma TotalAtLevel(c: Config, store: seq<Slot>, s: Side, q: seq<seq<nat>>, p: Price)
    requires Placed(store, s, q) && OrdersOK(c, store) && |q| == c.numLevels && c.InRange(p)
    ensures TotalAt(Rests(store, Flatten(s, q)), p) == Total(Rests(store, q[p - c.basePrice]))
  {
    var l := p - c.basePrice;
    var a, g, w := Rests(store, NodesBefore(s, q, l)), Rests(store, q[l]), From(store, s, q, Rank(s, |q|, l) + 1);
    FlattenSplit(s, q, l);
    assert Rests(store, Flatten(s, q)) == a + g + w;
    TotalAtAppend(a + g, w, p);
    TotalAtAppend(a, g, p);
    LevelPrices(c, store, s, q, l);
    WorsePrices(c, store, s, q, l);
    BetterPrices(c, store, s, q, l);
    TotalAtAll(a, p);
    TotalAtAll(g, p);
    TotalAtAll(w, p);
  }

  lemma BetterPrices(c: Config, store: seq<Slot>, s: Side, q: seq<seq<nat>>, l: nat)
    requires Placed(store, s, q) && OrdersOK(c, store) && l < |q| == c.numLevels
    ensures var a := Rests(store, NodesBefore(s, q, l)); forall i :: 0 <= i < |a| ==> a[i].price != c.basePrice + l
  {
    var a := Rests(store, NodesBefore(s, q, l));
    forall i | 0 <= i < |a| ensures a[i].price != c.basePrice + l {
      ChainPlaced(store, s, q, 0, Rank(s, |q|, l), i);
    }
  }

  /** Outside the configured range nothing rests. */
  lemma {:induction false} TotalAtOutside(c: Config, os: seq<Resting>, p: Price)
    requires !c.InRange(p) && forall i :: 0 <= i < |os| ==> c.InRange(os[i].price)
    ensures TotalAt(os, p) == 0
  {
    if os != [] { TotalAtOutside(c, os[1..], p); }
  }

  lemma SideInRange(c: Config, r: Rep, s: Side)
    requires Core(c, r)
    ensures var os := BookRep.Abs(r).On(s);
      forall i :: 0 <= i < |os| ==> c.InRange(os[i].price) && os[i].id != 0 && os[i].qty > 0
  {
    var os := BookRep.Abs(r).On(s);
    forall i | 0 <= i < |os| ensures c.InRange(os[i].price) && os[i].id != 0 && os[i].qty > 0 {
      ChainPlaced(r.store, s, r.Queues(s), 0, c.numLevels, i);
    }
  }

  // ----- the cached best level and the walks from it -------------------------------------

  lemma IndexRange(c: Config, r: Rep)
    requires Core(c, r)
    ensures forall id :: id in r.index ==> 0 <= r.index[id] < |r.store|
  {
  }

  /** The head of a non-empty level with nothing before it is the front of its side. */
  lemma HeadFacts(c: Config, r: Rep, s: Side, l: nat)
    requires Core(c, r) && l < c.numLevels && r.Queues(s)[l] != [] && NodesBefore(s, r.Queues(s), l) == []
    ensures |r.bidQ| == |r.askQ| == |r.bids| == |r.asks| == c.numLevels
    ensures LevelOK(r.store, r.Levels(s)[l], r.Queues(s)[l]) && r.Levels(s)[l].head == r.Queues(s)[l][0]
    ensures var n := r.Queues(s)[l][0];
      && n < |r.store| && r.store[n].Live? && n !in r.free
      && r.store[n].order.side == s && r.store[n].order.levelIdx == l
      && OrderOK(c, r.store[n].order) && r.store[n].order.id in r.index
      && BookRep.Abs(r).On(s) != [] && BookRep.Abs(r).On(s)[0] == View(r.store, n)
  {
    FlattenSplit(s, r.Queues(s), l);
    assert r.Queues(s)[l][0] in r.Queues(s)[l];
    assert Flatten(s, r.Queues(s))[0] == r.Queues(s)[l][0];
  }

  lemma HeadNull(c: Config, r: Rep, s: Side, l: nat)
    requires Core(c, r) && l < c.numLevels
    ensures |r.Queues(s)| == |r.Levels(s)| == c.numLevels
    ensures r.Levels(s)[l].head == NULL <==> r.Queues(s)[l] == []
  {
    assert LevelOK(r.store, r.Levels(s)[l], r.Queues(s)[l]);
  }

  lemma CountZero(c: Config, r: Rep, s: Side, l: nat)
    requires Core(c, r) && l < c.numLevels
    ensures |r.Queues(s)| == |r.Levels(s)| == c.numLevels
    ensures r.Levels(s)[l].count == 0 <==> r.Queues(s)[l] == []
  {
    assert LevelOK(r.store, r.Levels(s)[l], r.Queues(s)[l]);
  }

  /** The cached best level is where the side's front order rests; there is none iff the side is empty. */
  lemma BestFacts(c: Config, r: Rep, s: Side, members: set<nat>, best: nat)
    requires Core(c, r) && Edge(s, r.Queues(s), members, best)
    ensures |r.Queues(s)| == c.numLevels
    ensures best == NO_BEST <==> BookRep.Abs(r).On(s) == []
    ensures best != NO_BEST ==> best < c.numLevels && r.Queues(s)[best] != [] && NodesBefore(s, r.Queues(s), best) == []
    ensures best != NO_BEST ==> BookRep.Abs(r).On(s)[0].price == c.basePrice + best
  {
    var q := r.Queues(s);
    if best == NO_BEST {
      ChainEmpty(s, q, 0, |q|);
    } else {
      ChainEmpty(s, q, 0, Rank(s, |q|, best));
      HeadFacts(c, r, s, best);
    }
  }

  lemma FromBest(store: seq<Slot>, s: Side, q: seq<seq<nat>>, best: nat)
    requires best < |q| && NodesBefore(s, q, best) == []
    ensures Rests(store, Flatten(s, q)) == From(store, s, q, Rank(s, |q|, best))
  {
    var rank := Rank(s, |q|, best);
    ChainSplit(s, q, 0, rank, |q|);
    assert Chain(s, q, 0, rank) + Chain(s, q, rank, |q|) == Chain(s, q, rank, |q|);
  }

  /** One level of the can_fully_fill walk. */
  lemma CanFillStep(c: Config, store: seq<Slot>, a: Side, q: seq<seq<nat>>, i: nat, level: Level, bound: Bound,
      qty: Quantity, acc: Quantity, rest: seq<Resting>)
    requires Placed(store, a.Opposite(), q) && OrdersOK(c, store) && i < |q| == c.numLevels && q[i] != []
    requires var s := a.Opposite(); From(store, s, q, Rank(s, |q|, i) + 1) == rest
    requires level.total == Wrap32(Total(Rests(store, q[i])))
    requires WithinLimit(c, a, i, bound)
    ensures var sum, s := Wrap32(acc + level.total), a.Opposite();
      CanFill(a, From(store, s, q, Rank(s, |q|, i)), bound, qty, acc) ==
        (sum >= qty || CanFill(a, rest, bound, qty, sum))
  {
    hide From, CanFill, Placed, OrdersOK;
    FromLevel(c, store, a.Opposite(), q, i);
    WrapSum(Total(Rests(store, q[i])), acc);
    CanFillGroup(a, Rests(store, q[i]), rest, bound, qty, acc);
  }

  lemma SideFormed(c: Config, r: Rep, s: Side)
    requires Core(c, r)
    ensures Placed(r.store, s, r.Queues(s)) && OrdersOK(c, r.store) && |r.Queues(s)| == c.numLevels
  {
  }

  ghost predicate WithinLimit(c: Config, a: Side, i: nat, bound: Bound) {
    match bound
    case Unbounded => true
    case UpTo(p) => if a.Buy? then i <= p - c.basePrice else i >= p - c.basePrice
  }

  /** Past the limit, or past the last level, the walk finds nothing. */
  lemma CanFillEnd(c: Config, store: seq<Slot>, a: Side, q: seq<seq<nat>>, i: nat, bound: Bound, qty: Quantity,
      acc: Quantity)
    requires Placed(store, a.Opposite(), q) && OrdersOK(c, store) && |q| == c.numLevels
    requires i != NO_BEST ==> i < |q| && q[i] != [] && !WithinLimit(c, a, i, bound)
    ensures i == NO_BEST ==> !CanFill(a, [], bound, qty, acc)
    ensures i != NO_BEST ==> var s := a.Opposite(); !CanFill(a, From(store, s, q, Rank(s, |q|, i)), bound, qty, acc)
  {
    if i != NO_BEST { FromLevel(c, store, a.Opposite(), q, i); }
  }

  /** One level of the top_n walk. */
  lemma TopNStep(c: Config, store: seq<Slot>, s: Side, q: seq<seq<nat>>, i: nat, level: Level, n: nat,
      rest: seq<Resting>)
    requires Placed(store, s, q) && OrdersOK(c, store) && i < |q| == c.numLevels && q[i] != [] && n > 0
    requires level.total == Wrap32(Total(Rests(store, q[i]))) && level.count == |q[i]|
    requires From(store, s, q, Rank(s, |q|, i) + 1) == rest
    ensures From(store, s, q, Rank(s, |q|, i))[0].price == c.basePrice + i < 0x8000_0000
    ensures TopN(From(store, s, q, Rank(s, |q|, i)), n)
         == [LevelSnapshot(From(store, s, q, Rank(s, |q|, i))[0].price, level.total, level.count)] + TopN(rest, n - 1)
  {
    hide From, TopN, Placed, OrdersOK;
    FromLevel(c, store, s, q, i);
    TopNGroup(Rests(store, q[i]), rest, n);
  }

  lemma TopNExtend(out: seq<LevelSnapshot>, l: LevelSnapshot, more: seq<LevelSnapshot>)
    ensures out + ([l] + more) == out + [l] + more
  {
  }

  lemma TopNEnd(os: seq<Resting>, n: nat, out: seq<LevelSnapshot>)
    requires n == 0 || os == []
    ensures out + TopN(os, n) == out
  {
  }
}
