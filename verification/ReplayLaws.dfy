/** What a replay means, said without the handler's own helpers: which symbol it follows, what it counts, at which
    prices orders enter, and which orders rest after a tape, as a finite map from references to orders. */
module ReplayLaws {
  import opened LobTypes
  import opened NaiveBook
  import opened NaiveLaws
  import opened NaiveRuns
  import opened NaiveReports
  import opened Replay
  import Itch

  // ----- prices ------------------------------------------------------------------------

  /** The tick as the 32-bit unsigned number the price is divided by. */
  function Divisor(tick: int): (unit: nat)
    requires -0x8000_0000 <= tick < 0x8000_0000 && tick != 0
    ensures unit > 0
  {
    if tick < 0 then 0x1_0000_0000 + tick else tick
  }

  lemma MulMono(a: nat, b: nat, c: nat)
    requires a <= b
    ensures a * c <= b * c
  {
  }

  /** A number has one whole quotient. */
  lemma OneQuotient(p: nat, unit: nat, q: nat, r: nat)
    requires q * unit <= p < (r + 1) * unit
    ensures q <= r
  {
    if q > r {
      MulMono(r + 1, q, unit);
      assert false;
    }
  }

  lemma QuotientFits(p: nat, unit: nat)
    requires unit > 0
    ensures (p / unit) * unit <= p < (p / unit + 1) * unit && p / unit <= p
  {
    var q := p / unit;
    assert p == unit * q + p % unit;
    assert (q + 1) * unit == q * unit + unit;
    MulMono(1, unit, q);
  }

  lemma QuotientIs(p: nat, unit: nat, q: nat)
    requires unit > 0 && q * unit <= p < (q + 1) * unit
    ensures p / unit == q
  {
    QuotientFits(p, unit);
    var r := p / unit;
    OneQuotient(p, unit, q, r);
    OneQuotient(p, unit, r, q);
  }

  /** The engine price is the whole number of ticks in the feed price, read as a signed 32-bit number. */
  lemma EnginePriceIs(p: Itch.Uint32, tick: int, q: nat)
    requires -0x8000_0000 <= tick < 0x8000_0000 && tick != 0
    requires var unit := if tick < 0 then 0x1_0000_0000 + tick else tick; q * unit <= p < (q + 1) * unit
    ensures EnginePrice(p, tick) == if q < 0x8000_0000 then q else q - 0x1_0000_0000
  {
    QuotientIs(p, Divisor(tick), q);
    QuotientFits(p, Divisor(tick));
  }

  /** With a positive tick, the price in ticks: rounded down, and exact as long as it fits 31 bits. */
  lemma PriceInTicks(p: Itch.Uint32, tick: int)
    requires 0 < tick < 0x8000_0000
    ensures p / tick < 0x8000_0000 ==> EnginePrice(p, tick) * tick <= p < (EnginePrice(p, tick) + 1) * tick
    ensures (EnginePrice(p, tick) - p / tick) % 0x1_0000_0000 == 0
  {
    QuotientFits(p, tick);
    EnginePriceIs(p, tick, p / tick);
  }

  // ----- the symbol followed -------------------------------------------------------------

  /** A symbol on the wire: eight characters, the rest spaces. */
  function Padded(symbol: Itch.Bytes): (wire: Itch.Bytes)
    ensures |wire| == 8
  {
    (symbol + seq(8, _ => ' ' as int))[..8]
  }

  lemma SymbolIsPadded(wire: Itch.Bytes, symbol: Itch.Bytes)
    ensures SymbolIs(wire, symbol) <==> wire == Padded(symbol)
  {
  }

  /** A directory message that gives the symbol a locate code. */
  predicate Names(symbol: Itch.Bytes, e: Itch.Event) {
    e.StockDirectory? && e.stock == Padded(symbol) && e.locate != 0
  }

  /** The locate code of the first message that names the symbol; 0 until then. */
  function Target(symbol: Itch.Bytes, es: seq<Itch.Event>): Itch.Uint16 {
    if es == [] then 0 else if Names(symbol, es[0]) then es[0].locate else Target(symbol, es[1..])
  }

  lemma {:induction false} TargetSoFar(symbol: Itch.Bytes, es: seq<Itch.Event>, e: Itch.Event)
    ensures Target(symbol, es + [e]) ==
      if Target(symbol, es) != 0 then Target(symbol, es) else if Names(symbol, e) then e.locate else 0
  {
    hide Names;
    var all := es + [e];
    if es == [] {
      assert all[0] == e && all[1..] == [];
      NamedIsReal(symbol, e);
    } else {
      assert all[0] == es[0] && all[1..] == es[1..] + [e];
      NamedIsReal(symbol, es[0]);
      TargetSoFar(symbol, es[1..], e);
    }
  }

  lemma NamedIsReal(symbol: Itch.Bytes, e: Itch.Event)
    ensures Names(symbol, e) ==> e.StockDirectory? && e.locate != 0
  {
  }

  lemma LocateFollows(u: Setup, d: Desk, e: Itch.Event)
    ensures LocateAfter(u, d, e) == if d.locate != 0 then d.locate else if Names(u.symbol, e) then e.locate else 0
  {
    if e.StockDirectory? { SymbolIsPadded(e.stock, u.symbol); }
  }

  /** Throughout a tape the handler follows the first message that names the symbol, whatever the tape, and so does the
      plain fold. */
  lemma {:induction false} FollowsFirst(u: Setup, es: seq<Itch.Event>)
    requires u.Valid()
    ensures HandleAll(u, EMPTY_DESK, es).0.locate == Target(u.symbol, es)
    ensures PlainAll(u, EMPTY_DESK, es).locate == Target(u.symbol, es)
  {
    hide Names, LocateAfter, OpsFor, Plain, Run, CountsAfter;
    if es != [] {
      var before, e := es[..|es| - 1], es[|es| - 1];
      FollowsFirst(u, before);
      TargetSoFar(u.symbol, before, e);
      assert before + [e] == es;
      LocateFollows(u, HandleAll(u, EMPTY_DESK, before).0, e);
      LocateFollows(u, PlainAll(u, EMPTY_DESK, before), e);
    }
  }

  // ----- the counters ------------------------------------------------------------------------

  /** The message carries the locate code t in the place where order messages have it. */
  predicate Concerns(e: Itch.Event, t: Itch.Uint16) {
    match e
    case AddOrder(l, _, _, _, _, _, _, _) => l == t
    case OrderExecuted(l, _, _, _, _) => l == t
    case OrderExecutedWithPrice(l, _, _, _, _, _, _) => l == t
    case OrderCancel(l, _, _, _) => l == t
    case OrderDelete(l, _, _) => l == t
    case OrderReplace(l, _, _, _, _, _) => l == t
    case _ => false
  }

  datatype Kind = Add | Execution | Cancellation | Deletion | Replacement | SkippedReplacement | Nothing

  /** What a message of the symbol counts as: a replacement as one or as skipped, as its original rests or not. */
  ghost function KindOf(u: Setup, before: seq<Itch.Event>, e: Itch.Event): Kind
    requires u.Valid()
  {
    if !Concerns(e, Target(u.symbol, before)) then Nothing
    else if e.AddOrder? then Add
    else if e.OrderExecuted? || e.OrderExecutedWithPrice? then Execution
    else if e.OrderCancel? then Cancellation
    else if e.OrderDelete? then Deletion
    else if e.OrderReplace? then
      if Lookup(HandleAll(u, EMPTY_DESK, before).0.book, e.original).Some? then Replacement else SkippedReplacement
    else Nothing
  }

  /** How many messages of a tape are of kind k. */
  ghost function Tally(u: Setup, es: seq<Itch.Event>, k: Kind): nat
    requires u.Valid()
  {
    if es == [] then 0
    else
      var before := es[..|es| - 1];
      Tally(u, before, k) + (if KindOf(u, before, es[|es| - 1]) == k then 1 else 0)
  }

  /** The counters are the numbers of the symbol's messages of each kind, whatever the tape. */
  lemma {:induction false} CountersAreMessages(u: Setup, es: seq<Itch.Event>)
    requires u.Valid()
    ensures HandleAll(u, EMPTY_DESK, es).0.counts ==
      Counts(Tally(u, es, Add), Tally(u, es, Execution), Tally(u, es, Cancellation), Tally(u, es, Deletion),
             Tally(u, es, Replacement), Tally(u, es, SkippedReplacement))
  {
    hide LocateAfter, OpsFor, Run, Target, Lookup;
    if es != [] {
      CountersAreMessages(u, es[..|es| - 1]);
      FollowsFirst(u, es[..|es| - 1]);
    }
  }

  // ----- one message on any book -----------------------------------------------------------------

  /** An add is a GTC limit submit under its reference, at its price in ticks, with its shares, side and time. */
  lemma AddSubmits(u: Setup, d: Desk, e: Itch.Event, q: nat)
    requires u.Valid() && e.AddOrder? && e.locate == d.locate
    requires var unit := if u.tick < 0 then 0x1_0000_0000 + u.tick else u.tick;
      q * unit <= e.price < (q + 1) * unit
    ensures q < 0x1_0000_0000
    ensures var p := if q < 0x8000_0000 then q else q - 0x1_0000_0000;
      var s := Submit(u.c, d.book, Request(e.ref, e.side, Limit, GTC, p, e.shares, e.ts));
      Handle(u, d, e).0.book == s.book && Handle(u, d, e).1 == s.trades
  {
    hide Submit, EnginePrice;
    EnginePriceIs(e.price, u.tick, q);
    QuotientIs(e.price, Divisor(u.tick), q);
    QuotientFits(e.price, Divisor(u.tick));
    OneOp(u.c, d.book, DoSubmit(Request(e.ref, e.side, Limit, GTC, EnginePrice(e.price, u.tick), e.shares, e.ts)));
  }

  /** A replacement cancels its original and submits a GTC limit order on the original's side under the new reference;
      with no original it does nothing. */
  lemma ReplaceSubmits(u: Setup, d: Desk, e: Itch.Event, q: nat)
    requires u.Valid() && e.OrderReplace? && e.locate == d.locate
    requires var unit := if u.tick < 0 then 0x1_0000_0000 + u.tick else u.tick;
      q * unit <= e.price < (q + 1) * unit
    ensures q < 0x1_0000_0000
    ensures Lookup(d.book, e.original).None? ==> Handle(u, d, e).0.book == d.book && Handle(u, d, e).1 == []
    ensures Lookup(d.book, e.original).Some? ==>
      var p := if q < 0x8000_0000 then q else q - 0x1_0000_0000;
      var side, b := Lookup(d.book, e.original).value.0, Cancel(d.book, e.original).0;
      var s := Submit(u.c, b, Request(e.ref, side, Limit, GTC, p, e.shares, e.ts));
      Handle(u, d, e).0.book == s.book && Handle(u, d, e).1 == s.trades
  {
    hide Submit, EnginePrice, Lookup, Cancel;
    EnginePriceIs(e.price, u.tick, q);
    QuotientIs(e.price, Divisor(u.tick), q);
    QuotientFits(e.price, Divisor(u.tick));
    if Lookup(d.book, e.original).Some? {
      var r := Request(e.ref, Lookup(d.book, e.original).value.0, Limit, GTC, EnginePrice(e.price, u.tick), e.shares,
                       e.ts);
      TwoOps(u.c, d.book, DoCancel(e.original), DoSubmit(r));
    }
  }

  /** An execution or a cancel takes its shares off the order it names, or the order out when that is all of it; a
      delete takes the order out. Every other reference finds what it found, and nothing trades. */
  lemma ShrinkingMessage(u: Setup, d: Desk, e: Itch.Event, x: OrderId)
    requires u.Valid() && WellFormed(u.c, d.book)
    requires e.OrderExecuted? || e.OrderExecutedWithPrice? || e.OrderCancel? || e.OrderDelete?
    requires e.locate == d.locate
    ensures Handle(u, d, e).1 == []
    ensures Lookup(Handle(u, d, e).0.book, x) ==
      match Lookup(d.book, x)
      case None => None
      case Some((s, o)) =>
        if x != e.ref then Some((s, o))
        else if e.OrderDelete? || o.qty <= e.shares then None
        else Some((s, Resting(x, o.price, o.qty - e.shares)))
  {
    hide Reduce, Cancel, Lookup, WellFormed;
    if e.OrderDelete? {
      OneOp(u.c, d.book, DoCancel(e.ref));
      LookupAfterCancel(u.c, d.book, e.ref, x);
    } else {
      OneOp(u.c, d.book, DoReduce(e.ref, e.shares));
      LookupAfterReduce(u.c, d.book, e.ref, e.shares, x);
    }
  }

  /** Messages of other symbols and of other kinds leave the book alone. */
  lemma OtherMessage(u: Setup, d: Desk, e: Itch.Event)
    requires u.Valid() && !Concerns(e, d.locate)
    ensures Handle(u, d, e).0.book == d.book && Handle(u, d, e).1 == []
  {
  }

  // ----- the tape as a map of references --------------------------------------------------

  datatype Standing = Standing(side: Side, price: int, shares: nat)

  /** Takes shares off a reference's order, and the order out when none are left. */
  function Less(m: map<OrderId, Standing>, ref: OrderId, shares: nat): map<OrderId, Standing> {
    if ref in m && shares < m[ref].shares then m[ref := m[ref].(shares := m[ref].shares - shares)] else m - {ref}
  }

  function OrdersAfter(m: map<OrderId, Standing>, t: Itch.Uint16, unit: nat, e: Itch.Event): map<OrderId, Standing>
    requires unit > 0
  {
    if !Concerns(e, t) then m
    else
      match e
      case AddOrder(_, _, _, ref, side, shares, _, price) => m[ref := Standing(side, price / unit, shares)]
      case OrderExecuted(_, _, ref, shares, _) => Less(m, ref, shares)
      case OrderExecutedWithPrice(_, _, ref, shares, _, _, _) => Less(m, ref, shares)
      case OrderCancel(_, _, ref, shares) => Less(m, ref, shares)
      case OrderDelete(_, _, ref) => m - {ref}
      case OrderReplace(_, _, original, ref, shares, price) =>
        if original in m then (m - {original})[ref := Standing(m[original].side, price / unit, shares)] else m
      case _ => m
  }

  /** The orders that stand after a tape, by reference. */
  function Orders(symbol: Itch.Bytes, unit: nat, es: seq<Itch.Event>): map<OrderId, Standing>
    requires unit > 0
  {
    if es == [] then map[]
    else
      var before := es[..|es| - 1];
      OrdersAfter(Orders(symbol, unit, before), Target(symbol, before), unit, es[|es| - 1])
  }

  ghost predicate FindsStanding(b: Book, m: map<OrderId, Standing>, id: OrderId) {
    match Lookup(b, id)
    case None => id !in m
    case Some((s, o)) => id in m && m[id] == Standing(s, o.price, o.qty)
  }

  /** The book holds exactly the orders of the map. */
  ghost predicate Holds(b: Book, m: map<OrderId, Standing>) {
    forall id: OrderId :: FindsStanding(b, m, id)
  }

  lemma LessHolds(u: Setup, b: Book, m: map<OrderId, Standing>, ref: OrderId, shares: Quantity)
    requires WellFormed(u.c, b) && Holds(b, m)
    ensures WellFormed(u.c, Reduce(b, ref, shares).0) && Holds(Reduce(b, ref, shares).0, Less(m, ref, shares))
  {
    hide WellFormed, Reduce, Lookup;
    forall id: OrderId ensures FindsStanding(Reduce(b, ref, shares).0, Less(m, ref, shares), id) {
      LookupAfterReduce(u.c, b, ref, shares, id);
      assert FindsStanding(b, m, id);
    }
    LookupAfterReduce(u.c, b, ref, shares, ref);
  }

  lemma GoneHolds(u: Setup, b: Book, m: map<OrderId, Standing>, ref: OrderId)
    requires WellFormed(u.c, b) && Holds(b, m)
    ensures WellFormed(u.c, Cancel(b, ref).0) && Holds(Cancel(b, ref).0, m - {ref})
  {
    hide WellFormed, Cancel, Lookup;
    forall id: OrderId ensures FindsStanding(Cancel(b, ref).0, m - {ref}, id) {
      LookupAfterCancel(u.c, b, ref, id);
      assert FindsStanding(b, m, id);
    }
    LookupAfterCancel(u.c, b, ref, ref);
  }

  lemma JoinedHolds(u: Setup, b: Book, m: map<OrderId, Standing>, ref: OrderId, side: Side, shares: Quantity,
                    price: Itch.Uint32)
    requires u.Valid() && WellFormed(u.c, b) && Holds(b, m)
    requires Locate(b, ref).None? && ref != 0 && Rests(u, b, side, shares, EnginePrice(price, u.tick))
    ensures var b' := b.With(side, Insert(side, b.On(side), Resting(ref, EnginePrice(price, u.tick), shares)));
      WellFormed(u.c, b') && Holds(b', m[ref := Standing(side, price / Divisor(u.tick), shares)])
  {
    hide WellFormed, Insert, Lookup, Locate, EnginePrice, NaiveBook.WouldCross, Holds;
    PriceOnLadder(u, price);
    InsertHolds(u.c, b, m, side, Resting(ref, EnginePrice(price, u.tick), shares));
  }

  /** A price on the ladder is the price in ticks, without wrapping. */
  lemma PriceOnLadder(u: Setup, price: Itch.Uint32)
    requires u.Valid() && u.c.InRange(EnginePrice(price, u.tick))
    ensures EnginePrice(price, u.tick) == price / Divisor(u.tick)
  {
    hide EnginePrice;
    QuotientFits(price, Divisor(u.tick));
    EnginePriceIs(price, u.tick, price / Divisor(u.tick));
  }

  lemma InsertHolds(c: Config, b: Book, m: map<OrderId, Standing>, side: Side, o: Resting)
    requires WellFormed(c, b) && Holds(b, m) && Locate(b, o.id).None?
    requires o.id != 0 && o.qty > 0 && c.InRange(o.price) && !NaiveBook.WouldCross(b, side, o.price)
    ensures var b' := b.With(side, Insert(side, b.On(side), o));
      WellFormed(c, b') && Holds(b', m[o.id := Standing(side, o.price, o.qty)])
  {
    hide WellFormed, Insert, Lookup, Locate, NaiveBook.WouldCross;
    var b', m' := b.With(side, Insert(side, b.On(side), o)), m[o.id := Standing(side, o.price, o.qty)];
    forall id: OrderId ensures FindsStanding(b', m', id) {
      LookupAfterInsert(c, b, side, o, id);
      assert FindsStanding(b, m, id);
    }
    LookupAfterInsert(c, b, side, o, o.id);
  }

  lemma ReplacedHolds(u: Setup, d: Desk, es: seq<Itch.Event>, e: Itch.Event, m: map<OrderId, Standing>)
    requires u.Valid() && d == PlainAll(u, EMPTY_DESK, es) && e.OrderReplace? && e.locate == d.locate
    requires Introduced(u, d.book, es) && FreshRefs(u, es + [e]) && Orderly(u, d, e)
    requires WellFormed(u.c, d.book) && Holds(d.book, m)
    ensures var b' := Plain(u, d.book, d.locate, e);
      WellFormed(u.c, b') && Holds(b', OrdersAfter(m, d.locate, Divisor(u.tick), e))
  {
    hide WellFormed, Insert, Lookup, Locate, EnginePrice, Rests, Cancel, Holds, PlainAll, FreshRefs, Introduced;
    HoldsOne(d.book, m, e.original);
    if Lookup(d.book, e.original).Some? {
      NotYetInBook(u, d.book, es, e);
      CancelledStaysAbsent(d.book, e.original, e.ref);
      GoneHolds(u, d.book, m, e.original);
      var side := Lookup(d.book, e.original).value.0;
      JoinedHolds(u, Cancel(d.book, e.original).0, m - {e.original}, e.ref, side, e.shares, e.price);
    }
  }

  lemma HoldsOne(b: Book, m: map<OrderId, Standing>, id: OrderId)
    requires Holds(b, m)
    ensures Lookup(b, id).Some? <==> id in m
    ensures id in m ==> m[id].side == Lookup(b, id).value.0
  {
    assert FindsStanding(b, m, id);
  }

  lemma MessageHolds(u: Setup, d: Desk, es: seq<Itch.Event>, e: Itch.Event, m: map<OrderId, Standing>)
    requires u.Valid() && d == PlainAll(u, EMPTY_DESK, es)
    requires Introduced(u, d.book, es) && FreshRefs(u, es + [e]) && Orderly(u, d, e)
    requires WellFormed(u.c, d.book) && Holds(d.book, m)
    ensures var b' := Plain(u, d.book, d.locate, e);
      WellFormed(u.c, b') && Holds(b', OrdersAfter(m, d.locate, Divisor(u.tick), e))
  {
    hide WellFormed, Insert, Lookup, Locate, EnginePrice, Rests, Cancel, Reduce, Holds, PlainAll, FreshRefs, Introduced,
      Less;
    if Concerns(e, d.locate) {
      match e
      case AddOrder(_, _, _, ref, side, shares, _, price) =>
        NotYetInBook(u, d.book, es, e);
        JoinedHolds(u, d.book, m, ref, side, shares, price);
      case OrderExecuted(_, _, ref, shares, _) => LessHolds(u, d.book, m, ref, shares);
      case OrderExecutedWithPrice(_, _, ref, shares, _, _, _) => LessHolds(u, d.book, m, ref, shares);
      case OrderCancel(_, _, ref, shares) => LessHolds(u, d.book, m, ref, shares);
      case OrderDelete(_, _, ref) => GoneHolds(u, d.book, m, ref);
      case OrderReplace(_, _, _, _, _, _) => ReplacedHolds(u, d, es, e, m);
    }
  }

  /** After a tape that introduces each reference once and never crosses, the book holds exactly the orders of the map:
      each under its reference, on its side, at its price in ticks, with the shares that are left. */
  lemma {:induction false} TapeIsOrders(u: Setup, es: seq<Itch.Event>)
    requires u.Valid() && FreshRefs(u, es) && OrderlyTape(u, es)
    ensures var b := HandleAll(u, EMPTY_DESK, es).0.book;
      WellFormed(u.c, b) && Holds(b, Orders(u.symbol, Divisor(u.tick), es))
  {
    if es == [] {
      NothingHeld();
    } else {
      hide WellFormed, Holds, HandleAll, PlainAll, Orderly, OrderlyTape, FreshRefs, Introduced, OrdersAfter, Plain,
        Target, LocateAfter, CountsAfter;
      var before, e := es[..|es| - 1], es[|es| - 1];
      assert before + [e] == es;
      OrderlyPrefix(u, es, |before|);
      TapeIsOrders(u, before);
      TapeIsPlain(u, before);
      TapeIsPlain(u, es);
      FollowsFirst(u, before);
      PlainOneMore(u, EMPTY_DESK, before, e);
      MessageHolds(u, PlainAll(u, EMPTY_DESK, before), before, e, Orders(u.symbol, Divisor(u.tick), before));
    }
  }

  lemma NothingHeld()
    ensures Holds(Book([], []), map[])
  {
    forall id: OrderId ensures FindsStanding(Book([], []), map[], id) {
    }
  }

  /** From bytes to orders: replaying the framed encoding of such a tape leaves exactly the orders of the map. */
  lemma BytesToOrders(u: Setup, gs: seq<Itch.Message>)
    requires u.Valid() && (forall i :: 0 <= i < |gs| ==> Itch.WellFormed(gs[i]))
    requires FreshRefs(u, Itch.EventsOf(gs)) && OrderlyTape(u, Itch.EventsOf(gs))
    ensures Itch.Readable(Itch.Stream(gs))
    ensures Holds(HandleAll(u, EMPTY_DESK, Itch.Events(Itch.Stream(gs))).0.book,
                  Orders(u.symbol, Divisor(u.tick), Itch.EventsOf(gs)))
  {
    hide FreshRefs, OrderlyTape, HandleAll, PlainAll, Holds, WellFormed, Orders;
    BytesToBook(u, gs);
    Itch.ParseStream(gs);
    TapeIsOrders(u, Itch.EventsOf(gs));
  }
}
