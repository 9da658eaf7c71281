/** The order book as a trader pictures it: two queues of orders, best price first and oldest first
    within a price. Everything the engine does is specified here on plain sequences. */
module NaiveBook {
  import opened LobTypes

  datatype Resting = Resting(id: OrderId, price: Price, qty: Quantity)

  datatype Book = Book(bids: seq<Resting>, asks: seq<Resting>) {
    function On(s: Side): seq<Resting> {
      if s.Buy? then bids else asks
    }

    function With(s: Side, os: seq<Resting>): Book {
      if s.Buy? then Book(os, asks) else Book(bids, os)
    }

    function Size(): nat {
      |bids| + |asks|
    }
  }

  /** How far an aggressor may go; a market order has no bound. */
  datatype Bound = Unbounded | UpTo(price: Price)

  /** On side s, price p is strictly better than price q. */
  predicate Ahead(s: Side, p: Price, q: Price) {
    if s.Buy? then p > q else p < q
  }

  /** An aggressor on side s bounded by `bound` may trade at a resting price p. */
  predicate Reaches(s: Side, bound: Bound, p: Price) {
    match bound
    case Unbounded => true
    case UpTo(limit) => if s.Buy? then p <= limit else p >= limit
  }

  // ----- lookup ---------------------------------------------------------

  /** Position of the order with this id, or |os|. */
  function Index(os: seq<Resting>, id: OrderId): (k: nat)
    ensures k <= |os|
    ensures k < |os| ==> os[k].id == id
    ensures forall j :: 0 <= j < k ==> os[j].id != id
  {
    if os == [] || os[0].id == id then 0 else 1 + Index(os[1..], id)
  }

  function Locate(b: Book, id: OrderId): Option<Side> {
    if Index(b.bids, id) < |b.bids| then Some(Buy)
    else if Index(b.asks, id) < |b.asks| then Some(Sell)
    else None
  }

  function Lookup(b: Book, id: OrderId): Option<(Side, Resting)> {
    match Locate(b, id)
    case None => None
    case Some(s) => Some((s, b.On(s)[Index(b.On(s), id)]))
  }

  ghost predicate DistinctIds(os: seq<Resting>) {
    forall i, j :: 0 <= i < j < |os| ==> os[i].id != os[j].id
  }

  // ----- changes to one queue -------------------------------------------

  function Insert(s: Side, os: seq<Resting>, o: Resting): seq<Resting> {
    if os == [] || Ahead(s, o.price, os[0].price) then [o] + os
    else [os[0]] + Insert(s, os[1..], o)
  }

  function Remove(os: seq<Resting>, id: OrderId): seq<Resting> {
    var k := Index(os, id);
    if k == |os| then os else os[..k] + os[k + 1..]
  }

  function Resize(os: seq<Resting>, id: OrderId, qty: Quantity): seq<Resting> {
    var k := Index(os, id);
    if k == |os| then os else os[k := os[k].(qty := qty)]
  }

  // ----- matching --------------------------------------------------------

  datatype Aggressor = Aggressor(id: OrderId, side: Side, ts: Timestamp)

  datatype MatchResult = MatchResult(rest: seq<Resting>, trades: seq<Trade>, remaining: Quantity)

  function Fill(a: Aggressor, o: Resting, qty: Quantity): Trade {
    Trade(o.id, a.id, o.price, qty, a.ts, a.side)
  }

  /** Trade against the front of the opposite queue until the quantity, the bound or the queue runs out. */
  function Match(a: Aggressor, os: seq<Resting>, bound: Bound, qty: Quantity): MatchResult {
    if qty == 0 || os == [] || !Reaches(a.side, bound, os[0].price) then MatchResult(os, [], qty)
    else if qty < os[0].qty then
      MatchResult([os[0].(qty := os[0].qty - qty)] + os[1..], [Fill(a, os[0], qty)], 0)
    else
      var m := Match(a, os[1..], bound, qty - os[0].qty);
      m.(trades := [Fill(a, os[0], os[0].qty)] + m.trades)
  }

  /** The walk of can_fully_fill: 32-bit sums, compared with the quantity once per price level. */
  function CanFill(s: Side, os: seq<Resting>, bound: Bound, qty: Quantity, acc: Quantity := 0): bool {
    if os == [] || !Reaches(s, bound, os[0].price) then false
    else
      var sum := Wrap32(acc + os[0].qty);
      if |os| > 1 && os[1].price == os[0].price then CanFill(s, os[1..], bound, qty, sum)
      else sum >= qty || CanFill(s, os[1..], bound, qty, sum)
  }

  predicate WouldCross(b: Book, s: Side, p: Price) {
    var os := b.On(s.Opposite());
    os != [] && Reaches(s, UpTo(p), os[0].price)
  }

  // ----- the operations ---------------------------------------------------

  datatype Outcome = Outcome(book: Book, result: SubmitResult, trades: seq<Trade>)

  function RequestBound(r: Request): Bound {
    if r.kind.Market? then Unbounded else UpTo(r.price)
  }

  /** The match phase of an accepted request. */
  function MatchRequest(b: Book, r: Request): MatchResult {
    Match(Aggressor(r.id, r.side, r.ts), b.On(r.side.Opposite()), RequestBound(r), r.qty)
  }

  predicate BadRequest(c: Config, b: Book, r: Request) {
    r.qty == 0 || r.id == INVALID_ORDER_ID || Locate(b, r.id).Some? || (r.kind.Limit? && !c.InRange(r.price))
  }

  /** Time-in-force conditions under which nothing is done at all. */
  predicate KilledEarly(b: Book, r: Request) {
    || (r.tif.FOK? && !CanFill(r.side, b.On(r.side.Opposite()), RequestBound(r), r.qty))
    || (r.tif.PostOnly? && (r.kind.Market? || WouldCross(b, r.side, r.price)))
  }

  predicate DropsRemainder(r: Request) {
    r.tif.IOC? || r.kind.Market?
  }

  function Submit(c: Config, b: Book, r: Request): Outcome {
    if BadRequest(c, b, r) then Outcome(b, SubmitResult(Rejected, 0, 0), [])
    else if KilledEarly(b, r) then Outcome(b, SubmitResult(Cancelled, 0, r.qty), [])
    else
      var m := MatchRequest(b, r);
      MatchLeaves(Aggressor(r.id, r.side, r.ts), b.On(r.side.Opposite()), RequestBound(r), r.qty);
      var matched := b.With(r.side.Opposite(), m.rest);
      var filled := r.qty - m.remaining;
      if m.remaining == 0 then Outcome(matched, SubmitResult(FullyFilled, r.qty, 0), m.trades)
      else if DropsRemainder(r) then
        Outcome(matched, SubmitResult(if filled > 0 then PartiallyFilled else Cancelled, filled, m.remaining), m.trades)
      else
        Outcome(matched.With(r.side, Insert(r.side, matched.On(r.side), Resting(r.id, r.price, m.remaining))),
                SubmitResult(if filled == 0 then Accepted else PartiallyFilled, filled, m.remaining), m.trades)
  }

  function Cancel(b: Book, id: OrderId): (Book, bool) {
    match Locate(b, id)
    case None => (b, false)
    case Some(s) => (b.With(s, Remove(b.On(s), id)), true)
  }

  function Reduce(b: Book, id: OrderId, amount: Quantity): (Book, bool) {
    match Lookup(b, id)
    case None => (b, false)
    case Some((s, o)) =>
      if amount >= o.qty then Cancel(b, id) else (b.With(s, Resize(b.On(s), id, o.qty - amount)), true)
  }

  function Replacement(id: OrderId, s: Side, qty: Quantity, price: Price, ts: Timestamp): Request {
    Request(id, s, Limit, GTC, price, qty, ts)
  }

  function Modify(c: Config, b: Book, id: OrderId, qty: Quantity, price: Price, ts: Timestamp): Outcome {
    match Lookup(b, id)
    case None => Outcome(b, SubmitResult(Rejected, 0, 0), [])
    case Some((s, o)) =>
      if price == o.price && 0 < qty <= o.qty then
        Outcome(b.With(s, Resize(b.On(s), id, qty)), SubmitResult(Accepted, 0, qty), [])
      else
        Submit(c, Cancel(b, id).0, Replacement(id, s, qty, price, ts))
  }

  // ----- the queries -------------------------------------------------------

  function Best(os: seq<Resting>): Price {
    if os == [] then INVALID_PRICE else os[0].price
  }

  function Total(os: seq<Resting>): nat {
    if os == [] then 0 else os[0].qty + Total(os[1..])
  }

  lemma {:induction false} TotalAppend(a: seq<Resting>, b: seq<Resting>)
    ensures Total(a + b) == Total(a) + Total(b)
  {
    if a == [] { assert a + b == b; } else {
      assert (a + b)[1..] == a[1..] + b;
      TotalAppend(a[1..], b);
    }
  }

  function TotalAt(os: seq<Resting>, p: Price): nat {
    if os == [] then 0 else (if os[0].price == p then os[0].qty else 0) + TotalAt(os[1..], p)
  }

  function Traded(ts: seq<Trade>): nat {
    if ts == [] then 0 else ts[0].quantity + Traded(ts[1..])
  }

  /** How many of the orders at the front share the first one's price. */
  function FrontCount(os: seq<Resting>): (k: nat)
    ensures k <= |os|
    ensures os != [] ==> k > 0
    ensures forall j :: 0 <= j < k ==> os[j].price == os[0].price
    ensures k < |os| && k > 0 ==> os[k].price != os[0].price
  {
    if os == [] then 0
    else if |os| == 1 || os[1].price != os[0].price then 1
    else 1 + FrontCount(os[1..])
  }

  /** The first n price levels, best first: price, 32-bit total and order count of each. */
  function TopN(os: seq<Resting>, n: nat): seq<LevelSnapshot> {
    if n == 0 || os == [] then []
    else
      var k := FrontCount(os);
      [LevelSnapshot(os[0].price, Wrap32(Total(os[..k])), Wrap32(k))] + TopN(os[k..], n - 1)
  }

  /** Matching never leaves more than was asked for. */
  lemma MatchLeaves(a: Aggressor, os: seq<Resting>, bound: Bound, qty: Quantity)
    ensures Match(a, os, bound, qty).remaining <= qty
  {
  }
}
