/** src/replay.cpp: the handler that turns one symbol's ITCH tape into a book, proved against a fold over
    the messages, and from the bytes of the tape. */
module Replay {
  import opened LobTypes
  import opened NaiveBook
  import opened NaiveRuns
  import opened OrderBooks
  import opened OrderIdMaps
  import opened BookEdits
  import Itch

  datatype Counts = Counts(adds: nat, execs: nat, cancels: nat, deletes: nat, replacements: nat, skipped: nat)

  const NO_COUNTS := Counts(0, 0, 0, 0, 0, 0)

  /** The handler's parameters: engine configuration, wanted symbol, ITCH ticks per engine tick. */
  datatype Setup = Setup(c: Config, symbol: Itch.Bytes, tick: int) {
    predicate Valid() {
      c.Valid() && -0x8000_0000 <= tick < 0x8000_0000 && tick != 0
    }
  }

  datatype Desk = Desk(book: Book, locate: Itch.Uint16, counts: Counts)

  /** ITCH symbols are eight bytes, padded on the right with spaces. */
  ghost predicate SymbolIs(wire: Itch.Bytes, want: Itch.Bytes) {
    |wire| == 8 && forall i :: 0 <= i < 8 ==> wire[i] == if i < |want| then want[i] else 0x20
  }

  method SymbolMatches(wire: Itch.Bytes, want: Itch.Bytes) returns (same: bool)
    requires |wire| == 8
    ensures same == SymbolIs(wire, want)
  {
    for i := 0 to 8
      invariant forall j :: 0 <= j < i ==> wire[j] == if j < |want| then want[j] else 0x20
    {
      var w: Itch.Byte := if i < |want| then want[i] else 0x20;
      if wire[i] != w { return false; }
    }
    same := true;
  }

  /** Conversion to a 32-bit signed integer keeps the low 32 bits. */
  function ToInt32(x: int): Price {
    var w := x % 0x1_0000_0000;
    if w < 0x8000_0000 then w else w - 0x1_0000_0000
  }

  /** A feed price in engine ticks: an unsigned division, the tick read as unsigned too, then 32 bits signed. */
  function EnginePrice(price: Itch.Uint32, tick: int): Price
    requires -0x8000_0000 <= tick < 0x8000_0000 && tick != 0
  {
    ToInt32(price / (if tick < 0 then tick + 0x1_0000_0000 else tick))
  }

  /** The book operations a message stands for, given the book it meets. */
  function OpsFor(u: Setup, d: Desk, e: Itch.Event): seq<Op>
    requires u.Valid()
  {
    match e
    case AddOrder(locate, _, ts, ref, side, shares, _, price) =>
      if locate != d.locate then []
      else [DoSubmit(Request(ref, side, Limit, GTC, EnginePrice(price, u.tick), shares, ts))]
    case OrderExecuted(locate, _, ref, shares, _) => if locate != d.locate then [] else [DoReduce(ref, shares)]
    case OrderExecutedWithPrice(locate, _, ref, shares, _, _, _) =>
      if locate != d.locate then [] else [DoReduce(ref, shares)]
    case OrderCancel(locate, _, ref, shares) => if locate != d.locate then [] else [DoReduce(ref, shares)]
    case OrderDelete(locate, _, ref) => if locate != d.locate then [] else [DoCancel(ref)]
    case OrderReplace(locate, ts, original, ref, shares, price) =>
      if locate != d.locate then []
      else
        var o := Lookup(d.book, original);
        if o.None? then []
        else [DoCancel(original), DoSubmit(Request(ref, o.value.0, Limit, GTC, EnginePrice(price, u.tick), shares, ts))]
    case _ => []
  }

  ghost function LocateAfter(u: Setup, d: Desk, e: Itch.Event): Itch.Uint16 {
    match e
    case StockDirectory(locate, _, stock, _) => if d.locate == 0 && SymbolIs(stock, u.symbol) then locate else d.locate
    case _ => d.locate
  }

  function CountsAfter(d: Desk, e: Itch.Event): Counts {
    var n := d.counts;
    match e
    case AddOrder(locate, _, _, _, _, _, _, _) => if locate != d.locate then n else n.(adds := n.adds + 1)
    case OrderExecuted(locate, _, _, _, _) => if locate != d.locate then n else n.(execs := n.execs + 1)
    case OrderExecutedWithPrice(locate, _, _, _, _, _, _) => if locate != d.locate then n else n.(execs := n.execs + 1)
    case OrderCancel(locate, _, _, _) => if locate != d.locate then n else n.(cancels := n.cancels + 1)
    case OrderDelete(locate, _, _) => if locate != d.locate then n else n.(deletes := n.deletes + 1)
    case OrderReplace(locate, _, original, _, _, _) =>
      if locate != d.locate then n
      else if Lookup(d.book, original).None? then n.(skipped := n.skipped + 1)
      else n.(replacements := n.replacements + 1)
    case _ => n
  }

  /** One message: the new desk and the trades the engine would report. */
  ghost function Handle(u: Setup, d: Desk, e: Itch.Event): (Desk, seq<Trade>)
    requires u.Valid()
  {
    var t := Run(u.c, d.book, OpsFor(u, d, e));
    (Desk(t.book, LocateAfter(u, d, e), CountsAfter(d, e)), t.trades)
  }

  /** What a message, and then a tape, does to the id index. */
  ghost function MessageEdits(u: Setup, d: Desk, e: Itch.Event): seq<Edit>
    requires u.Valid()
  {
    RunEdits(u.c, d.book, OpsFor(u, d, e))
  }

  ghost function TapeEdits(u: Setup, d: Desk, es: seq<Itch.Event>): seq<Edit>
    requires u.Valid()
    decreases |es|
  {
    if es == [] then [] else MessageEdits(u, d, es[0]) + TapeEdits(u, Handle(u, d, es[0]).0, es[1..])
  }

  /** A whole tape. */
  ghost function HandleAll(u: Setup, d: Desk, es: seq<Itch.Event>): (Desk, seq<Trade>)
    requires u.Valid()
  {
    if es == [] then (d, [])
    else
      var (d', ts) := HandleAll(u, d, es[..|es| - 1]);
      var (d'', more) := Handle(u, d', es[|es| - 1]);
      (d'', ts + more)
  }

  /** What the engine asks of a message: real ids in the lookups it causes, and room for what rests. */
  ghost predicate Affordable(u: Setup, d: Desk, e: Itch.Event)
    requires u.Valid()
  {
    var ops := OpsFor(u, d, e);
    && (forall i :: 0 <= i < |ops| ==> Admissible(ops[i]))
    && (forall i :: 0 <= i <= |ops| ==> Run(u.c, d.book, ops[..i]).book.Size() <= u.c.maxOrders)
    && (e.OrderReplace? && e.locate == d.locate ==> e.original != INVALID_ORDER_ID)
    && (e.StockDirectory? ==> |e.stock| == 8)
  }

  ghost predicate AllAffordable(u: Setup, d: Desk, es: seq<Itch.Event>)
    requires u.Valid()
  {
    forall i :: 0 <= i < |es| ==> Affordable(u, HandleAll(u, d, es[..i]).0, es[i])
  }

  class ReplayHandler {
    const book: OrderBook
    const symbol: Itch.Bytes
    const itchTick: int
    var targetLocate: Itch.Uint16
    var adds: nat
    var execs: nat
    var cancels: nat
    var deletes: nat
    var replacements: nat
    var replacesSkipped: nat

    ghost function Footprint(): set<object> {
      {this} + book.Repr()
    }

    ghost function Params(): Setup {
      Setup(book.cfg, symbol, itchTick)
    }

    ghost predicate Valid()
      reads Footprint()
    {
      this !in book.Repr() && book.Valid() && Params().Valid()
    }

    ghost function State(): Desk
      reads Footprint()
    {
      Desk(book.Abs(), targetLocate, Counts(adds, execs, cancels, deletes, replacements, replacesSkipped))
    }

    constructor (book: OrderBook, symbol: Itch.Bytes, itchTick: int)
      requires book.Valid() && book.cfg.Valid()
      requires -0x8000_0000 <= itchTick < 0x8000_0000 && itchTick != 0
      ensures Valid() && this.book == book && Params() == Setup(book.cfg, symbol, itchTick)
      ensures State() == Desk(book.Abs(), 0, NO_COUNTS)
    {
      hide OrderBook.Valid, OrderBook.Abs;
      this.book, this.symbol, this.itchTick := book, symbol, itchTick;
      targetLocate := 0;
      adds, execs, cancels, deletes, replacements, replacesSkipped := 0, 0, 0, 0, 0, 0;
    }

    /** The engine can take this message, and after it these edits. */
    ghost predicate Ready(e: Itch.Event, more: seq<Edit>)
      reads Footprint()
    {
      && Valid() && Affordable(Params(), State(), e)
      && book.ids.Safe(MessageEdits(Params(), State(), e) + more)
    }

    /** The handler has done what the message asks of a desk that was d. */
    ghost predicate Handled(d: Desk, e: Itch.Event, more: seq<Edit>)
      reads Footprint()
    {
      Valid() && book.ids.Safe(more) && State() == Handle(Params(), d, e).0
    }

    method OnStockDirectory(e: Itch.Event, ghost more: seq<Edit>)
      requires Ready(e, more) && e.StockDirectory?
      modifies this`targetLocate
      ensures Handled(old(State()), e, more)
    {
      hide OrderBook.Valid, OrderBook.Abs, SymbolIs, SafeEdits;
      Regroup([], [], more);
      if targetLocate == 0 {
        var same := SymbolMatches(e.stock, symbol);
        if same { targetLocate := e.locate; }
      }
    }

    method OnAddOrder(e: Itch.Event, ghost more: seq<Edit>)
      requires Ready(e, more) && e.AddOrder?
      modifies Footprint()
      ensures Handled(old(State()), e, more)
    {
      hide OrderBook.Valid, OrderBook.Sane, OrderBook.Kept, OrderBook.Abs, Step, Submit, NaiveBook.Cancel,
        NaiveBook.Reduce, Lookup, SafeEdits, SubmitEdits, CancelEdits, ReduceEdits, Finds;
      Regroup([], [], more);
      ghost var u, d := Params(), State();
      if e.locate != targetLocate { return; }
      var r := Request(e.ref, e.side, Limit, GTC, EnginePrice(e.price, itchTick), e.shares, e.ts);
      OneOp(u.c, d.book, DoSubmit(r));
      StepSubmit(u.c, d.book, r);
      var _, _ := book.Submit(r, more, true);
      adds := adds + 1;
    }

    method OnOrderExecuted(e: Itch.Event, ghost more: seq<Edit>)
      requires Ready(e, more) && e.OrderExecuted?
      modifies Footprint()
      ensures Handled(old(State()), e, more)
    {
      hide OrderBook.Valid, OrderBook.Sane, OrderBook.Kept, OrderBook.Abs, Step, Submit, NaiveBook.Cancel,
        NaiveBook.Reduce, Lookup, SafeEdits, SubmitEdits, CancelEdits, ReduceEdits, Finds;
      Regroup([], [], more);
      ghost var u, d := Params(), State();
      if e.locate != targetLocate { return; }
      OneOp(u.c, d.book, DoReduce(e.ref, e.shares));
      StepReduce(u.c, d.book, e.ref, e.shares);
      book.ValidIsSane();
      var _ := book.Reduce(e.ref, e.shares, more, true);
      execs := execs + 1;
    }

    method OnOrderExecutedWithPrice(e: Itch.Event, ghost more: seq<Edit>)
      requires Ready(e, more) && e.OrderExecutedWithPrice?
      modifies Footprint()
      ensures Handled(old(State()), e, more)
    {
      hide OrderBook.Valid, OrderBook.Sane, OrderBook.Kept, OrderBook.Abs, Step, Submit, NaiveBook.Cancel,
        NaiveBook.Reduce, Lookup, SafeEdits, SubmitEdits, CancelEdits, ReduceEdits, Finds;
      Regroup([], [], more);
      ghost var u, d := Params(), State();
      if e.locate != targetLocate { return; }
      OneOp(u.c, d.book, DoReduce(e.ref, e.shares));
      StepReduce(u.c, d.book, e.ref, e.shares);
      book.ValidIsSane();
      var _ := book.Reduce(e.ref, e.shares, more, true);
      execs := execs + 1;
    }

    method OnOrderCancel(e: Itch.Event, ghost more: seq<Edit>)
      requires Ready(e, more) && e.OrderCancel?
      modifies Footprint()
      ensures Handled(old(State()), e, more)
    {
      hide OrderBook.Valid, OrderBook.Sane, OrderBook.Kept, OrderBook.Abs, Step, Submit, NaiveBook.Cancel,
        NaiveBook.Reduce, Lookup, SafeEdits, SubmitEdits, CancelEdits, ReduceEdits, Finds;
      Regroup([], [], more);
      ghost var u, d := Params(), State();
      if e.locate != targetLocate { return; }
      OneOp(u.c, d.book, DoReduce(e.ref, e.shares));
      StepReduce(u.c, d.book, e.ref, e.shares);
      book.ValidIsSane();
      var _ := book.Reduce(e.ref, e.shares, more, true);
      cancels := cancels + 1;
    }

    method OnOrderDelete(e: Itch.Event, ghost more: seq<Edit>)
      requires Ready(e, more) && e.OrderDelete?
      modifies Footprint()
      ensures Handled(old(State()), e, more)
    {
      hide OrderBook.Valid, OrderBook.Sane, OrderBook.Kept, OrderBook.Abs, Step, Submit, NaiveBook.Cancel,
        NaiveBook.Reduce, Lookup, SafeEdits, SubmitEdits, CancelEdits, ReduceEdits, Finds;
      Regroup([], [], more);
      ghost var u, d := Params(), State();
      if e.locate != targetLocate { return; }
      OneOp(u.c, d.book, DoCancel(e.ref));
      StepCancel(u.c, d.book, e.ref);
      book.ValidIsSane();
      var _ := book.Cancel(e.ref, more, true);
      deletes := deletes + 1;
    }

    method OnOrderReplace(e: Itch.Event, ghost more: seq<Edit>)
      requires Ready(e, more) && e.OrderReplace?
      modifies Footprint()
      ensures Handled(old(State()), e, more)
    {
      hide OrderBook.Valid, OrderBook.Sane, OrderBook.Kept, OrderBook.Abs, Step, Submit, NaiveBook.Cancel,
        NaiveBook.Reduce, Lookup, SafeEdits, SubmitEdits, CancelEdits, ReduceEdits, Finds;
      Regroup([], [], more);
      ghost var u, d := Params(), State();
      if e.locate != targetLocate { return; }
      book.ValidIsSane();
      var o := book.Find(e.original);
      if o.None? { replacesSkipped := replacesSkipped + 1; return; }
      var r := Request(e.ref, o.value.0, Limit, GTC, EnginePrice(e.price, itchTick), e.shares, e.ts);
      TwoOps(u.c, d.book, DoCancel(e.original), DoSubmit(r));
      StepCancel(u.c, d.book, e.original);
      StepSubmit(u.c, NaiveBook.Cancel(d.book, e.original).0, r);
      ghost var b' := NaiveBook.Cancel(d.book, e.original).0;
      Regroup(CancelEdits(d.book, e.original), SubmitEdits(u.c, b', r), more);
      var _ := book.Cancel(e.original, SubmitEdits(u.c, b', r) + more, true);
      var _, _ := book.Submit(r, more, true);
      replacements := replacements + 1;
    }

    /** The callbacks, selected by message as parse selects them. */
    method OnEvent(e: Itch.Event, ghost more: seq<Edit>)
      requires Ready(e, more)
      modifies Footprint()
      ensures Handled(old(State()), e, more)
    {
      hide OrderBook.Valid, OrderBook.Abs, SafeEdits;
      Regroup([], [], more);
      match e
      case StockDirectory(_, _, _, _) => OnStockDirectory(e, more);
      case AddOrder(_, _, _, _, _, _, _, _) => OnAddOrder(e, more);
      case OrderExecuted(_, _, _, _, _) => OnOrderExecuted(e, more);
      case OrderExecutedWithPrice(_, _, _, _, _, _, _) => OnOrderExecutedWithPrice(e, more);
      case OrderCancel(_, _, _, _) => OnOrderCancel(e, more);
      case OrderDelete(_, _, _) => OnOrderDelete(e, more);
      case OrderReplace(_, _, _, _, _, _) => OnOrderReplace(e, more);
      case SystemEvent(_, _) =>
      case Unhandled(_, _) =>
    }

    /** A tape, message by message. */
    method OnEvents(es: seq<Itch.Event>)
      requires Valid()
      requires AllAffordable(Params(), State(), es) && book.ids.Safe(TapeEdits(Params(), State(), es))
      modifies Footprint()
      ensures Valid()
      ensures State() == HandleAll(Params(), old(State()), es).0
    {
      hide Handle, Affordable, MessageEdits, OrderBook.Valid, OrderBook.Abs, OrderIdMap.Safe;
      ghost var u, d := Params(), State();
      assert es[0..] == es;
      for i := 0 to |es|
        invariant Valid()
        invariant State() == HandleAll(u, d, es[..i]).0
        invariant book.ids.Safe(TapeEdits(u, State(), es[i..]))
      {
        assert es[..i + 1][..i] == es[..i];
        assert es[i..][0] == es[i] && es[i..][1..] == es[i + 1..];
        OnEvent(es[i], TapeEdits(u, Handle(u, State(), es[i]).0, es[i + 1..]));
      }
      assert es[..|es|] == es;
    }

    /** The replay of a file image: parse dispatching to this handler. */
    method ReplayTape(data: Itch.Bytes) returns (count: nat)
      requires Valid()
      requires Itch.Readable(data) && AllAffordable(Params(), State(), Itch.Events(data))
      requires book.ids.Safe(TapeEdits(Params(), State(), Itch.Events(data)))
      modifies Footprint()
      ensures Valid()
      ensures State() == HandleAll(Params(), old(State()), Itch.Events(data)).0
      ensures count == |Itch.Events(data)|
    {
      hide OrderBook.Valid, OrderBook.Abs, HandleAll, AllAffordable, TapeEdits, Itch.Events, Itch.Readable;
      var es;
      es, count := Itch.Parse(data);
      OnEvents(es);
    }
  }

  lemma OneOp(c: Config, b: Book, op: Op)
    ensures Run(c, b, [op]) == var e := Step(c, b, op); Trace(e.book, [e.reply], e.trades)
    ensures [op][..1] == [op] && RunEdits(c, b, [op]) == OpEdits(c, b, op)
  {
    hide OpEdits;
    assert [op][..0] == [];
    assert Run(c, b, [op][..0]) == Trace(b, [], []);
    assert RunEdits(c, Step(c, b, op).book, [op][1..]) == [];
  }

  lemma StepSubmit(c: Config, b: Book, r: Request)
    ensures Step(c, b, DoSubmit(r)).book == Submit(c, b, r).book
  {
  }

  lemma StepCancel(c: Config, b: Book, id: OrderId)
    ensures Step(c, b, DoCancel(id)).book == NaiveBook.Cancel(b, id).0
  {
  }

  lemma StepReduce(c: Config, b: Book, id: OrderId, amount: Quantity)
    ensures Step(c, b, DoReduce(id, amount)).book == NaiveBook.Reduce(b, id, amount).0
  {
  }

  lemma TwoOps(c: Config, b: Book, op: Op, op': Op)
    ensures Run(c, b, [op, op']).book == Step(c, Step(c, b, op).book, op').book
    ensures Run(c, b, [op, op']).trades == Step(c, b, op).trades + Step(c, Step(c, b, op).book, op').trades
    ensures [op, op'][..1] == [op] && [op, op'][..2] == [op, op']
    ensures RunEdits(c, b, [op, op']) == OpEdits(c, b, op) + OpEdits(c, Step(c, b, op).book, op')
  {
    hide OpEdits;
    OneOp(c, b, op);
    OneOp(c, Step(c, b, op).book, op');
    assert [op, op'][1..] == [op'];
    assert [op, op'][..1] == [op];
  }

  // ----- the tape as a plain fold -------------------------------------------------------------

  /** What a message does to a book that never matches: adds and replacements join the back of their price,
      executions and cancels shrink, deletes remove. */
  function Plain(u: Setup, b: Book, locate: Itch.Uint16, e: Itch.Event): Book
    requires u.Valid()
  {
    match e
    case AddOrder(l, _, ts, ref, side, shares, _, price) =>
      if l != locate then b
      else b.With(side, Insert(side, b.On(side), Resting(ref, EnginePrice(price, u.tick), shares)))
    case OrderExecuted(l, _, ref, shares, _) => if l != locate then b else Reduce(b, ref, shares).0
    case OrderExecutedWithPrice(l, _, ref, shares, _, _, _) => if l != locate then b else Reduce(b, ref, shares).0
    case OrderCancel(l, _, ref, shares) => if l != locate then b else Reduce(b, ref, shares).0
    case OrderDelete(l, _, ref) => if l != locate then b else Cancel(b, ref).0
    case OrderReplace(l, ts, original, ref, shares, price) =>
      if l != locate || Lookup(b, original).None? then b
      else
        var side, b' := Lookup(b, original).value.0, Cancel(b, original).0;
        b'.With(side, Insert(side, b'.On(side), Resting(ref, EnginePrice(price, u.tick), shares)))
    case SystemEvent(_, _) => b
    case StockDirectory(_, _, _, _) => b
    case Unhandled(_, _) => b
  }

  ghost function PlainStep(u: Setup, d: Desk, e: Itch.Event): Desk
    requires u.Valid()
  {
    Desk(Plain(u, d.book, d.locate, e), LocateAfter(u, d, e), CountsAfter(d, e))
  }

  ghost function PlainAll(u: Setup, d: Desk, es: seq<Itch.Event>): Desk
    requires u.Valid()
  {
    if es == [] then d
    else
      PlainStep(u, PlainAll(u, d, es[..|es| - 1]), es[|es| - 1])
  }

  /** The reference under which a message puts a new order into the book: that of an add for the target symbol,
      or of a replacement of an order that rests. */
  function NewRef(d: Desk, e: Itch.Event): Option<OrderId> {
    if e.AddOrder? && e.locate == d.locate then Some(e.ref)
    else if e.OrderReplace? && e.locate == d.locate && Lookup(d.book, e.original).Some? then Some(e.ref)
    else None
  }

  const EMPTY_DESK := Desk(Book([], []), 0, NO_COUNTS)

  ghost function RefAt(u: Setup, es: seq<Itch.Event>, i: nat): Option<OrderId>
    requires u.Valid() && i < |es|
  {
    NewRef(PlainAll(u, EMPTY_DESK, es[..i]), es[i])
  }

  /** References of new orders of the target symbol are real, and each is introduced once on the tape. */
  ghost predicate FreshRefs(u: Setup, es: seq<Itch.Event>)
    requires u.Valid()
  {
    && (forall i :: 0 <= i < |es| ==> RefAt(u, es, i) != Some(INVALID_ORDER_ID))
    && (forall i, j :: 0 <= i < j < |es| && RefAt(u, es, i).Some? ==> RefAt(u, es, i) != RefAt(u, es, j))
  }

  lemma RefOfPrefix(u: Setup, es: seq<Itch.Event>, n: nat, i: nat)
    requires u.Valid() && i < n <= |es|
    ensures RefAt(u, es[..n], i) == RefAt(u, es, i)
  {
    assert es[..n][..i] == es[..i];
  }

  /** An order about to rest has shares, a price on the ladder, and nobody to trade with. */
  ghost predicate Rests(u: Setup, b: Book, side: Side, shares: nat, price: Price) {
    shares > 0 && u.c.InRange(price) && !WouldCross(b, side, price)
  }

  /** The exchange already matched: the message finds the plain book without anything to cross. */
  ghost predicate Orderly(u: Setup, d: Desk, e: Itch.Event)
    requires u.Valid()
  {
    && (e.AddOrder? && e.locate == d.locate ==> Rests(u, d.book, e.side, e.shares, EnginePrice(e.price, u.tick)))
    && (e.OrderReplace? && e.locate == d.locate && Lookup(d.book, e.original).Some? ==>
          Rests(u, Cancel(d.book, e.original).0, Lookup(d.book, e.original).value.0, e.shares,
                EnginePrice(e.price, u.tick)))
  }

  /** Some message of es introduces this reference. */
  ghost predicate Known(u: Setup, es: seq<Itch.Event>, id: OrderId)
    requires u.Valid()
  {
    exists k :: 0 <= k < |es| && RefAt(u, es, k) == Some(id)
  }

  /** Every id in the book was introduced by a message of es. */
  ghost predicate Introduced(u: Setup, b: Book, es: seq<Itch.Event>)
    requires u.Valid()
  {
    forall id :: id in Ids(b) ==> Known(u, es, id)
  }

  lemma LastRef(u: Setup, es: seq<Itch.Event>, e: Itch.Event)
    requires u.Valid()
    ensures RefAt(u, es + [e], |es|) == NewRef(PlainAll(u, EMPTY_DESK, es), e)
  {
    assert (es + [e])[..|es|] == es;
  }

  lemma NotYetInBook(u: Setup, b: Book, es: seq<Itch.Event>, e: Itch.Event)
    requires u.Valid() && Introduced(u, b, es) && FreshRefs(u, es + [e])
    requires NewRef(PlainAll(u, EMPTY_DESK, es), e).Some?
    ensures Locate(b, e.ref).None? && e.ref != INVALID_ORDER_ID
  {
    hide PlainAll, NewRef, RefAt;
    RefIs(PlainAll(u, EMPTY_DESK, es), e);
    LastRef(u, es, e);
    if e.ref in Ids(b) {
      var k :| 0 <= k < |es| && RefAt(u, es, k) == Some(e.ref);
      assert (es + [e])[..|es|] == es;
      RefOfPrefix(u, es + [e], |es|, k);
    }
    IdsLocate(b);
  }

  lemma RefIs(d: Desk, e: Itch.Event)
    requires NewRef(d, e).Some?
    ensures (e.AddOrder? || e.OrderReplace?) && NewRef(d, e) == Some(e.ref)
  {
  }

  /** A GTC limit order with a fresh id that meets nobody just joins its queue. */
  lemma SubmitIsInsert(u: Setup, b: Book, id: OrderId, side: Side, price: Price, shares: Quantity, ts: Timestamp)
    requires Rests(u, b, side, shares, price) && Locate(b, id).None? && id != 0
    ensures var e := Submit(u.c, b, Request(id, side, Limit, GTC, price, shares, ts));
      e.book == b.With(side, Insert(side, b.On(side), Resting(id, price, shares))) && e.trades == []
  {
    SubmitRests(u.c, b, Request(id, side, Limit, GTC, price, shares, ts));
  }

  lemma CancelledStaysAbsent(b: Book, id: OrderId, other: OrderId)
    requires Locate(b, other).None?
    ensures Locate(Cancel(b, id).0, other).None?
  {
    hide Cancel, Locate, Ids;
    CancelIdsWithin(b, id);
    IdsLocate(b);
    IdsLocate(Cancel(b, id).0);
  }

  /** On an orderly message the handler trades nothing and does the plain thing. */
  lemma HandleIsPlain(u: Setup, d: Desk, es: seq<Itch.Event>, e: Itch.Event)
    requires u.Valid() && d == PlainAll(u, EMPTY_DESK, es)
    requires Introduced(u, d.book, es) && FreshRefs(u, es + [e]) && Orderly(u, d, e)
    ensures Handle(u, d, e) == (PlainStep(u, d, e), [])
  {
    hide Submit, Reduce, Cancel, Insert, Lookup, EnginePrice, Rests, Introduced, FreshRefs, PlainAll;
    match e
    case AddOrder(locate, _, ts, ref, side, shares, _, price) =>
      if locate == d.locate {
        NotYetInBook(u, d.book, es, e);
        SubmitIsInsert(u, d.book, ref, side, EnginePrice(price, u.tick), shares, ts);
        OneOp(u.c, d.book, DoSubmit(Request(ref, side, Limit, GTC, EnginePrice(price, u.tick), shares, ts)));
      }
    case OrderReplace(locate, ts, original, ref, shares, price) =>
      if locate == d.locate && Lookup(d.book, original).Some? {
        NotYetInBook(u, d.book, es, e);
        CancelledStaysAbsent(d.book, original, ref);
        var side := Lookup(d.book, original).value.0;
        var r := Request(ref, side, Limit, GTC, EnginePrice(price, u.tick), shares, ts);
        SubmitIsInsert(u, Cancel(d.book, original).0, ref, side, EnginePrice(price, u.tick), shares, ts);
        TwoOps(u.c, d.book, DoCancel(original), DoSubmit(r));
      }
    case OrderExecuted(_, _, ref, shares, _) => OneOp(u.c, d.book, DoReduce(ref, shares));
    case OrderExecutedWithPrice(_, _, ref, shares, _, _, _) => OneOp(u.c, d.book, DoReduce(ref, shares));
    case OrderCancel(_, _, ref, shares) => OneOp(u.c, d.book, DoReduce(ref, shares));
    case OrderDelete(_, _, ref) => OneOp(u.c, d.book, DoCancel(ref));
    case SystemEvent(_, _) =>
    case StockDirectory(_, _, _, _) =>
    case Unhandled(_, _) =>
  }

  /** The ids of a book together with the one a message brings in. */
  ghost function IdsAnd(b: Book, extra: Option<OrderId>): set<OrderId> {
    Ids(b) + (if extra.Some? then {extra.value} else {})
  }

  lemma PlainIds(u: Setup, d: Desk, e: Itch.Event)
    requires u.Valid()
    ensures Ids(Plain(u, d.book, d.locate, e)) <= IdsAnd(d.book, NewRef(d, e))
  {
    hide Submit, Reduce, Cancel, Insert, Ids, EnginePrice;
    var b := d.book;
    match e
    case AddOrder(_, _, _, ref, side, shares, _, price) =>
      InsertIdSet(b, side, Resting(ref, EnginePrice(price, u.tick), shares));
    case OrderReplace(_, _, original, ref, shares, price) =>
      CancelIdsWithin(b, original);
      if Lookup(b, original).Some? {
        var o := Resting(ref, EnginePrice(price, u.tick), shares);
        InsertIdSet(Cancel(b, original).0, Lookup(b, original).value.0, o);
      }
    case OrderExecuted(_, _, ref, shares, _) => ReduceIdsWithin(b, ref, shares);
    case OrderExecutedWithPrice(_, _, ref, shares, _, _, _) => ReduceIdsWithin(b, ref, shares);
    case OrderCancel(_, _, ref, shares) => ReduceIdsWithin(b, ref, shares);
    case OrderDelete(_, _, ref) => CancelIdsWithin(b, ref);
    case SystemEvent(_, _) =>
    case StockDirectory(_, _, _, _) =>
    case Unhandled(_, _) =>
  }

  lemma StillIntroduced(u: Setup, b: Book, b': Book, es: seq<Itch.Event>, e: Itch.Event)
    requires u.Valid() && Introduced(u, b, es) && Ids(b') <= IdsAnd(b, NewRef(PlainAll(u, EMPTY_DESK, es), e))
    ensures Introduced(u, b', es + [e])
  {
    hide PlainAll, NewRef, RefAt, Ids;
    LastRef(u, es, e);
    forall id: OrderId | id in Ids(b') ensures Known(u, es + [e], id) {
      if RefAt(u, es + [e], |es|) != Some(id) {
        assert Known(u, es, id);
        var k :| 0 <= k < |es| && RefAt(u, es, k) == Some(id);
        assert (es + [e])[..|es|] == es;
        RefOfPrefix(u, es + [e], |es|, k);
      }
    }
  }

  /** Every message finds the plain book of the messages before it without anything to cross. */
  ghost predicate OrderlyTape(u: Setup, es: seq<Itch.Event>)
    requires u.Valid()
  {
    forall i :: 0 <= i < |es| ==> Orderly(u, PlainAll(u, EMPTY_DESK, es[..i]), es[i])
  }

  lemma OrderlyPrefix(u: Setup, es: seq<Itch.Event>, n: nat)
    requires u.Valid() && OrderlyTape(u, es) && FreshRefs(u, es) && n <= |es|
    ensures OrderlyTape(u, es[..n]) && FreshRefs(u, es[..n])
    ensures n < |es| ==> Orderly(u, PlainAll(u, EMPTY_DESK, es[..n]), es[n])
  {
    hide Orderly, PlainAll, NewRef, RefAt;
    forall i | 0 <= i < n ensures RefAt(u, es[..n], i) == RefAt(u, es, i) { RefOfPrefix(u, es, n, i); }
    forall i | 0 <= i < n ensures Orderly(u, PlainAll(u, EMPTY_DESK, es[..n][..i]), es[..n][i]) {
      assert es[..n][..i] == es[..i];
    }
  }

  lemma HandleOneMore(u: Setup, d: Desk, es: seq<Itch.Event>, e: Itch.Event)
    requires u.Valid()
    ensures HandleAll(u, d, es + [e]) ==
      (Handle(u, HandleAll(u, d, es).0, e).0, HandleAll(u, d, es).1 + Handle(u, HandleAll(u, d, es).0, e).1)
  {
    hide Handle;
    assert (es + [e])[..|es|] == es;
  }

  lemma PlainOneMore(u: Setup, d: Desk, es: seq<Itch.Event>, e: Itch.Event)
    requires u.Valid()
    ensures PlainAll(u, d, es + [e]) == PlainStep(u, PlainAll(u, d, es), e)
  {
    hide PlainStep;
    assert (es + [e])[..|es|] == es;
  }

  lemma OneMoreMessage(u: Setup, es: seq<Itch.Event>, e: Itch.Event)
    requires u.Valid() && FreshRefs(u, es + [e]) && Orderly(u, PlainAll(u, EMPTY_DESK, es), e)
    requires HandleAll(u, EMPTY_DESK, es) == (PlainAll(u, EMPTY_DESK, es), [])
    requires Introduced(u, PlainAll(u, EMPTY_DESK, es).book, es)
    ensures HandleAll(u, EMPTY_DESK, es + [e]) == (PlainAll(u, EMPTY_DESK, es + [e]), [])
    ensures Introduced(u, PlainAll(u, EMPTY_DESK, es + [e]).book, es + [e])
  {
    hide Handle, HandleAll, PlainAll, Orderly, FreshRefs, Plain, Introduced, Ids, IdsAnd, LocateAfter, CountsAfter;
    var p := PlainAll(u, EMPTY_DESK, es);
    HandleIsPlain(u, p, es, e);
    HandleOneMore(u, EMPTY_DESK, es, e);
    assert HandleAll(u, EMPTY_DESK, es).1 + Handle(u, p, e).1 == [];
    PlainOneMore(u, EMPTY_DESK, es, e);
    PlainIds(u, p, e);
    StillIntroduced(u, p.book, Plain(u, p.book, p.locate, e), es, e);
  }

  /** A tape whose references are fresh and whose adds and replacements never cross the plain book: the
      handler reports no trade and leaves exactly the plain book, order of arrival included. */
  lemma {:induction false} TapeIsPlain(u: Setup, es: seq<Itch.Event>)
    requires u.Valid() && FreshRefs(u, es) && OrderlyTape(u, es)
    ensures HandleAll(u, EMPTY_DESK, es) == (PlainAll(u, EMPTY_DESK, es), [])
    ensures Introduced(u, PlainAll(u, EMPTY_DESK, es).book, es)
  {
    if es == [] {
      NothingIntroduced(u);
    } else {
      hide *;
      var before := es[..|es| - 1];
      assert before + [es[|es| - 1]] == es;
      OrderlyPrefix(u, es, |before|);
      TapeIsPlain(u, before);
      OneMoreMessage(u, before, es[|es| - 1]);
    }
  }

  lemma NothingIntroduced(u: Setup)
    requires u.Valid()
    ensures Introduced(u, Book([], []), [])
  {
  }

  /** From bytes to book: the framed encoding of such a tape, replayed, gives the plain book of its messages. */
  lemma BytesToBook(u: Setup, gs: seq<Itch.Message>)
    requires u.Valid() && (forall i :: 0 <= i < |gs| ==> Itch.WellFormed(gs[i]))
    requires FreshRefs(u, Itch.EventsOf(gs)) && OrderlyTape(u, Itch.EventsOf(gs))
    ensures Itch.Readable(Itch.Stream(gs))
    ensures HandleAll(u, EMPTY_DESK, Itch.Events(Itch.Stream(gs))) == (PlainAll(u, EMPTY_DESK, Itch.EventsOf(gs)), [])
  {
    hide FreshRefs, OrderlyTape, HandleAll, PlainAll;
    Itch.ParseStream(gs);
    TapeIsPlain(u, Itch.EventsOf(gs));
  }

  /** The reference a message looks up in the book. */
  function OldRef(e: Itch.Event): Option<OrderId> {
    match e
    case OrderExecuted(_, _, ref, _, _) => Some(ref)
    case OrderExecutedWithPrice(_, _, ref, _, _, _, _) => Some(ref)
    case OrderCancel(_, _, ref, _) => Some(ref)
    case OrderDelete(_, _, ref) => Some(ref)
    case OrderReplace(_, _, original, _, _, _) => Some(original)
    case _ => None
  }

  /** The book's own preconditions, said of the tape: real references, eight-byte symbols, never more resting
      orders than the slab holds. */
  ghost predicate Fits(u: Setup, es: seq<Itch.Event>)
    requires u.Valid()
  {
    && (forall i :: 0 <= i < |es| ==> OldRef(es[i]) != Some(INVALID_ORDER_ID))
    && (forall i :: 0 <= i < |es| ==> es[i].StockDirectory? ==> |es[i].stock| == 8)
    && (forall i :: 0 <= i <= |es| ==> PlainAll(u, EMPTY_DESK, es[..i]).book.Size() <= u.c.maxOrders)
  }

  lemma CancelSize(b: Book, id: OrderId)
    ensures Cancel(b, id).0.Size() <= b.Size()
  {
  }

  lemma RunNothing(c: Config, b: Book, ops: seq<Op>)
    ensures Run(c, b, ops[..0]).book == b
  {
    assert ops[..0] == [];
  }

  /** The message's own operations stay within the slab. */
  lemma OpsAffordable(u: Setup, d: Desk, e: Itch.Event)
    requires u.Valid() && d.book.Size() <= u.c.maxOrders
    requires Handle(u, d, e).0.book.Size() <= u.c.maxOrders
    requires OldRef(e) != Some(INVALID_ORDER_ID) && (e.StockDirectory? ==> |e.stock| == 8)
    ensures Affordable(u, d, e)
  {
    hide Run, Lookup, EnginePrice, Cancel, LocateAfter, CountsAfter;
    var ops := OpsFor(u, d, e);
    RunNothing(u.c, d.book, ops);
    forall i | 0 <= i <= |ops| ensures Run(u.c, d.book, ops[..i]).book.Size() <= u.c.maxOrders {
      if i == |ops| {
        assert ops[..i] == ops;
      } else if i == 1 {
        assert ops[..1] == [ops[0]];
        OneOp(u.c, d.book, ops[0]);
        StepCancel(u.c, d.book, e.original);
        CancelSize(d.book, e.original);
      }
    }
  }

  /** Such a tape never asks more of the engine than it has. */
  lemma TapeIsAffordable(u: Setup, es: seq<Itch.Event>)
    requires u.Valid() && FreshRefs(u, es) && OrderlyTape(u, es) && Fits(u, es)
    ensures AllAffordable(u, EMPTY_DESK, es)
  {
    hide Affordable, Handle, HandleAll, PlainAll, Orderly, OrderlyTape, FreshRefs, Introduced, Book.Size;
    forall i | 0 <= i < |es| ensures Affordable(u, HandleAll(u, EMPTY_DESK, es[..i]).0, es[i]) {
      OrderlyPrefix(u, es, i);
      TapeIsPlain(u, es[..i]);
      OrderlyPrefix(u, es, i + 1);
      TapeIsPlain(u, es[..i + 1]);
      assert es[..i + 1] == es[..i] + [es[i]];
      HandleOneMore(u, EMPTY_DESK, es[..i], es[i]);
      OpsAffordable(u, PlainAll(u, EMPTY_DESK, es[..i]), es[i]);
    }
  }

  /** The replay program from a file image to the end-of-day book, with the intended erase or with the coded one
      on a tape whose erases are all safe. */
  method Reconstruct(c: Config, hash: Hash, backshift: Backshift, symbol: Itch.Bytes, itchTick: int, data: Itch.Bytes,
      ghost gs: seq<Itch.Message>)
    returns (handler: ReplayHandler, count: nat)
    requires Setup(c, symbol, itchTick).Valid()
    requires (forall i :: 0 <= i < |gs| ==> Itch.WellFormed(gs[i])) && data == Itch.Stream(gs)
    requires var u, es := Setup(c, symbol, itchTick), Itch.EventsOf(gs);
      && FreshRefs(u, es) && OrderlyTape(u, es) && Fits(u, es)
      && Harmless(c, hash, backshift, TapeEdits(u, EMPTY_DESK, es))
    ensures handler.Valid() && count == |Itch.EventsOf(gs)|
    ensures handler.State() == PlainAll(Setup(c, symbol, itchTick), EMPTY_DESK, Itch.EventsOf(gs))
  {
    hide FreshRefs, OrderlyTape, Fits, HandleAll, PlainAll, AllAffordable, OrderBook.Valid, OrderBook.Abs, TapeEdits,
      Itch.Readable, Itch.Events, Itch.Stream, Itch.EventsOf, Itch.WellFormed, FreshTable, SafeEdits;
    ghost var u := Setup(c, symbol, itchTick);
    BytesToBook(u, gs);
    TapeIsAffordable(u, Itch.EventsOf(gs));
    Itch.ParseStream(gs);
    var book := new OrderBook(c, hash, backshift);
    handler := new ReplayHandler(book, symbol, itchTick);
    count := handler.ReplayTape(data);
  }
}
