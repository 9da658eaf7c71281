/** Runs of the four operations on the naive book: what every reachable book looks like, where every
    share went, and what the operations undo of each other. */
module NaiveRuns {
  import opened LobTypes
  import opened NaiveBook
  import opened NaiveLaws

  datatype Op =
    | DoSubmit(r: Request)
    | DoCancel(id: OrderId)
    | DoReduce(id: OrderId, amount: Quantity)
    | DoModify(id: OrderId, qty: Quantity, price: Price, ts: Timestamp)

  datatype Reply = Report(result: SubmitResult) | Done(ok: bool)

  datatype Effect = Effect(book: Book, reply: Reply, trades: seq<Trade>)

  datatype Trace = Trace(book: Book, replies: seq<Reply>, trades: seq<Trade>)

  function Step(c: Config, b: Book, op: Op): Effect {
    match op
    case DoSubmit(r) => var e := Submit(c, b, r); Effect(e.book, Report(e.result), e.trades)
    case DoCancel(id) => var (b', ok) := Cancel(b, id); Effect(b', Done(ok), [])
    case DoReduce(id, amount) => var (b', ok) := Reduce(b, id, amount); Effect(b', Done(ok), [])
    case DoModify(id, qty, price, ts) =>
      var e := Modify(c, b, id, qty, price, ts);
      Effect(e.book, Report(e.result), e.trades)
  }

  function Run(c: Config, b: Book, ops: seq<Op>): Trace {
    if ops == [] then Trace(b, [], [])
    else
      var t, op := Run(c, b, ops[..|ops| - 1]), ops[|ops| - 1];
      var e := Step(c, t.book, op);
      Trace(e.book, t.replies + [e.reply], t.trades + e.trades)
  }

  // ----- queue by queue -------------------------------------------------------------------

  ghost predicate QueueOK(c: Config, s: Side, os: seq<Resting>) {
    Sorted(s, os) && Sound(c, os) && DistinctIds(os)
  }

  /** Every order of os' is, but for its size, an order of os, in the same relative order. */
  ghost predicate Thinned(os: seq<Resting>, os': seq<Resting>, at: seq<nat>) {
    && |at| == |os'|
    && (forall i :: 0 <= i < |at| ==>
          at[i] < |os| && os'[i].id == os[at[i]].id && os'[i].price == os[at[i]].price && os'[i].qty > 0)
    && forall i, j :: 0 <= i < j < |at| ==> at[i] < at[j]
  }

  lemma ThinnedOK(c: Config, s: Side, os: seq<Resting>, os': seq<Resting>, at: seq<nat>)
    requires QueueOK(c, s, os) && Thinned(os, os', at)
    ensures QueueOK(c, s, os')
  {
  }

  lemma ThinnedBook(c: Config, b: Book, s: Side, os': seq<Resting>, at: seq<nat>)
    requires WellFormed(c, b) && Thinned(b.On(s), os', at)
    ensures WellFormed(c, b.With(s, os'))
  {
    ThinnedOK(c, s, b.On(s), os', at);
  }

  lemma RemoveThins(os: seq<Resting>, id: OrderId) returns (at: seq<nat>)
    requires Positive(os)
    ensures Thinned(os, Remove(os, id), at)
  {
    hide Index;
    var k, r := Index(os, id), Remove(os, id);
    at := seq(|r|, i requires 0 <= i => if i < k then i else i + 1);
    forall i | 0 <= i < |r| ensures at[i] < |os| && r[i] == os[at[i]] {
    }
  }

  lemma ResizeThins(os: seq<Resting>, id: OrderId, qty: Quantity) returns (at: seq<nat>)
    requires Positive(os) && qty > 0
    ensures Thinned(os, Resize(os, id, qty), at)
  {
    hide Index;
    at := seq(|os|, i requires 0 <= i => i);
  }

  lemma MatchThins(a: Aggressor, os: seq<Resting>, bound: Bound, qty: Quantity) returns (at: seq<nat>)
    requires Positive(os)
    ensures Thinned(os, Match(a, os, bound, qty).rest, at)
  {
    hide Match;
    var k := MatchShape(a, os, bound, qty);
    var rest := Match(a, os, bound, qty).rest;
    at := seq(|os| - k, i requires 0 <= i => i + k);
    forall i | 0 <= i < |rest|
      ensures rest[i].id == os[at[i]].id && rest[i].price == os[at[i]].price && rest[i].qty > 0
    {
      assert at[i] == i + k;
    }
  }

  /** Where Insert puts an order: behind everything at least as good, ahead of everything worse. */
  lemma {:induction false} InsertPosition(s: Side, os: seq<Resting>, o: Resting) returns (k: nat)
    ensures k <= |os| && Insert(s, os, o) == os[..k] + [o] + os[k..]
    ensures forall j :: 0 <= j < k ==> !Ahead(s, o.price, os[j].price)
    ensures k < |os| ==> Ahead(s, o.price, os[k].price)
  {
    if os == [] || Ahead(s, o.price, os[0].price) {
      k := 0;
    } else {
      k := InsertPosition(s, os[1..], o);
      k := k + 1;
      assert [os[0]] + (os[1..][..k - 1] + [o] + os[1..][k - 1..]) == os[..k] + [o] + os[k..];
      forall j | 0 <= j < k ensures !Ahead(s, o.price, os[j].price) {
        if j > 0 { assert os[j] == os[1..][j - 1]; }
      }
    }
  }

  lemma InsertOK(c: Config, s: Side, os: seq<Resting>, o: Resting)
    requires QueueOK(c, s, os) && Absent(os, o.id)
    requires o.id != 0 && o.qty > 0 && c.InRange(o.price)
    ensures QueueOK(c, s, Insert(s, os, o))
    ensures forall x :: x in Insert(s, os, o) ==> x == o || x in os
  {
    hide Insert;
    var k := InsertPosition(s, os, o);
    assert QueueOK(c, s, os[..k] + [o] + os[k..]) by {
      forall j | k <= j < |os| ensures Ahead(s, o.price, os[j].price) {
        if j > k { assert !Ahead(s, os[j].price, os[k].price); }
      }
      PutInOK(c, s, os, k, o);
    }
  }

  lemma PutInOK(c: Config, s: Side, os: seq<Resting>, k: nat, o: Resting)
    requires QueueOK(c, s, os) && Absent(os, o.id) && k <= |os|
    requires o.id != 0 && o.qty > 0 && c.InRange(o.price)
    requires forall j :: 0 <= j < k ==> !Ahead(s, o.price, os[j].price)
    requires forall j :: k <= j < |os| ==> !Ahead(s, os[j].price, o.price)
    ensures QueueOK(c, s, os[..k] + [o] + os[k..])
  {
    var r := os[..k] + [o] + os[k..];
    forall i | 0 <= i < |r| ensures r[i] == if i < k then os[i] else if i == k then o else os[i - 1] {
    }
  }

  ghost predicate Absent(os: seq<Resting>, id: OrderId) {
    forall i :: 0 <= i < |os| ==> os[i].id != id
  }

  lemma AbsentFromBoth(b: Book, id: OrderId)
    ensures Locate(b, id).None? <==> Absent(b.bids, id) && Absent(b.asks, id)
    ensures Locate(b, id).None? <==> Lookup(b, id).None?
  {
  }

  lemma InsertLength(s: Side, os: seq<Resting>, o: Resting)
    ensures |Insert(s, os, o)| == |os| + 1
  {
    hide Insert;
    var k := InsertPosition(s, os, o);
  }

  /** Matching brings no new id into the queue. */
  lemma {:induction false} MatchKeepsAbsent(a: Aggressor, os: seq<Resting>, bound: Bound, qty: Quantity, id: OrderId)
    requires Absent(os, id)
    ensures Absent(Match(a, os, bound, qty).rest, id)
  {
    if qty != 0 && os != [] && Reaches(a.side, bound, os[0].price) && qty >= os[0].qty {
      MatchKeepsAbsent(a, os[1..], bound, qty - os[0].qty, id);
    }
  }

  // ----- every step keeps the book well formed ------------------------------------------------

  lemma SoundPositive(c: Config, os: seq<Resting>)
    requires Sound(c, os)
    ensures Positive(os)
  {
  }

  lemma CancelKeeps(c: Config, b: Book, id: OrderId)
    requires WellFormed(c, b)
    ensures WellFormed(c, Cancel(b, id).0)
    ensures Locate(Cancel(b, id).0, id).None?
  {
    if Locate(b, id).Some? {
      var s := Locate(b, id).value;
      SoundPositive(c, b.On(s));
      var at := RemoveThins(b.On(s), id);
      ThinnedBook(c, b, s, Remove(b.On(s), id), at);
      RemovedAbsent(b.On(s), id);
      SharedAbsent(b, id, s);
      AbsentFromBoth(Cancel(b, id).0, id);
    }
  }

  lemma RemovedAbsent(os: seq<Resting>, id: OrderId)
    requires DistinctIds(os)
    ensures Absent(Remove(os, id), id)
  {
  }

  lemma SharedAbsent(b: Book, id: OrderId, s: Side)
    requires NoSharedIds(b) && Locate(b, id) == Some(s)
    ensures Absent(b.On(s.Opposite()), id)
  {
    var os := b.On(s);
    assert os[Index(os, id)].id == id;
  }

  lemma ResizeKeeps(c: Config, b: Book, s: Side, id: OrderId, qty: Quantity)
    requires WellFormed(c, b) && qty > 0
    ensures WellFormed(c, b.With(s, Resize(b.On(s), id, qty)))
  {
    SoundPositive(c, b.On(s));
    var at := ResizeThins(b.On(s), id, qty);
    ThinnedBook(c, b, s, Resize(b.On(s), id, qty), at);
  }

  /** A queue that gains one order, out of the other side's reach and with an id of its own, stays apart from it. */
  lemma StaysApart(b: Book, s: Side, o: Resting, os: seq<Resting>)
    requires Uncrossed(b) && NoSharedIds(b)
    requires forall x :: x in os ==> x == o || x in b.On(s)
    requires var other := b.On(s.Opposite());
      Absent(other, o.id) && forall j :: 0 <= j < |other| ==> !Reaches(s, UpTo(o.price), other[j].price)
    ensures Uncrossed(b.With(s, os)) && NoSharedIds(b.With(s, os))
  {
    var b', other := b.With(s, os), b.On(s.Opposite());
    forall i, j | 0 <= i < |os| && 0 <= j < |other|
      ensures os[i].id != other[j].id && if s.Buy? then os[i].price < other[j].price else other[j].price < os[i].price
    {
      assert os[i] in os && !Reaches(s, UpTo(o.price), other[j].price);
      if os[i] != o { var k :| 0 <= k < |b.On(s)| && b.On(s)[k] == os[i]; }
    }
  }

  /** Resting an order that cannot trade with anyone keeps the book well formed. */
  lemma InsertKeeps(c: Config, b: Book, s: Side, o: Resting)
    requires WellFormed(c, b) && Locate(b, o.id).None?
    requires o.id != 0 && o.qty > 0 && c.InRange(o.price)
    requires !WouldCross(b, s, o.price)
    ensures WellFormed(c, b.With(s, Insert(s, b.On(s), o)))
  {
    hide Insert, Locate, Sorted, Sound, DistinctIds, NoSharedIds, Uncrossed, Absent, Reaches;
    AbsentFromBoth(b, o.id);
    InsertOK(c, s, b.On(s), o);
    OutOfReach(s, UpTo(o.price), b.On(s.Opposite()));
    StaysApart(b, s, o, Insert(s, b.On(s), o));
  }

  lemma MatchKeeps(c: Config, b: Book, r: Request)
    requires WellFormed(c, b) && Locate(b, r.id).None?
    ensures var m := MatchRequest(b, r);
      var matched := b.With(r.side.Opposite(), m.rest);
      && WellFormed(c, matched)
      && (forall id: OrderId :: Locate(b, id).None? ==> Locate(matched, id).None?)
      && (m.remaining > 0 && r.kind.Limit? ==> !WouldCross(matched, r.side, r.price))
  {
    hide Match, Locate, Sorted, DistinctIds, NoSharedIds, Uncrossed, Sound;
    var s := r.side.Opposite();
    var a, os, bound := Aggressor(r.id, r.side, r.ts), b.On(s), RequestBound(r);
    SoundPositive(c, os);
    var at := MatchThins(a, os, bound, r.qty);
    ThinnedBook(c, b, s, MatchRequest(b, r).rest, at);
    forall id: OrderId | Locate(b, id).None? ensures Locate(b.With(s, MatchRequest(b, r).rest), id).None? {
      AbsentFromBoth(b, id);
      MatchKeepsAbsent(a, os, bound, r.qty, id);
      AbsentFromBoth(b.With(s, MatchRequest(b, r).rest), id);
    }
    var k := MatchShape(a, os, bound, r.qty);
  }

  lemma SubmitKeeps(c: Config, b: Book, r: Request)
    requires WellFormed(c, b)
    ensures WellFormed(c, Submit(c, b, r).book)
  {
    if !BadRequest(c, b, r) && !KilledEarly(b, r) {
      MatchKeeps(c, b, r);
      var m := MatchRequest(b, r);
      var matched := b.With(r.side.Opposite(), m.rest);
      if m.remaining > 0 && !DropsRemainder(r) {
        InsertKeeps(c, matched, r.side, Resting(r.id, r.price, m.remaining));
      }
    }
  }

  lemma ReduceKeeps(c: Config, b: Book, id: OrderId, amount: Quantity)
    requires WellFormed(c, b)
    ensures WellFormed(c, Reduce(b, id, amount).0)
  {
    hide WellFormed, Cancel, Resize;
    CancelKeeps(c, b, id);
    if Lookup(b, id).Some? {
      var (s, o) := Lookup(b, id).value;
      if amount < o.qty { ResizeKeeps(c, b, s, id, o.qty - amount); }
    }
  }

  lemma ModifyKeeps(c: Config, b: Book, id: OrderId, qty: Quantity, price: Price, ts: Timestamp)
    requires WellFormed(c, b)
    ensures WellFormed(c, Modify(c, b, id, qty, price, ts).book)
  {
    hide WellFormed, Cancel, Resize, Submit;
    CancelKeeps(c, b, id);
    if Lookup(b, id).Some? {
      var (s, o) := Lookup(b, id).value;
      if qty > 0 { ResizeKeeps(c, b, s, id, qty); }
      SubmitKeeps(c, Cancel(b, id).0, Replacement(id, s, qty, price, ts));
    }
  }

  lemma StepKeeps(c: Config, b: Book, op: Op)
    requires WellFormed(c, b)
    ensures WellFormed(c, Step(c, b, op).book)
  {
    hide WellFormed, Cancel, Reduce, Modify, Submit;
    match op
    case DoSubmit(r) => SubmitKeeps(c, b, r);
    case DoCancel(id) => CancelKeeps(c, b, id);
    case DoReduce(id, amount) => ReduceKeeps(c, b, id, amount);
    case DoModify(id, qty, price, ts) => ModifyKeeps(c, b, id, qty, price, ts);
  }

  /** No run crosses the book: on every reachable book both queues are sorted by price, ids are unique, sizes
      positive, and every bid is strictly below every ask. */
  lemma {:induction false} ReachableIsWellFormed(c: Config, ops: seq<Op>)
    ensures WellFormed(c, Run(c, Book([], []), ops).book)
  {
    if ops != [] {
      ReachableIsWellFormed(c, ops[..|ops| - 1]);
      StepKeeps(c, Run(c, Book([], []), ops[..|ops| - 1]).book, ops[|ops| - 1]);
    }
  }

  // ----- where every share went ----------------------------------------------------------------

  function BookTotal(b: Book): nat {
    Total(b.bids) + Total(b.asks)
  }

  /** Quantity an operation brings in: that of an order not rejected. */
  function Entered(op: Op, e: Effect): nat {
    match op
    case DoSubmit(r) => if e.reply.Report? && !e.reply.result.status.Rejected? then r.qty else 0
    case DoModify(_, qty, _, _) => if e.reply.Report? && !e.reply.result.status.Rejected? then qty else 0
    case _ => 0
  }

  /** Quantity an operation takes out other than by trading: cancelled, reduced, replaced, or left over
      and not resting afterwards. */
  function Withdrawn(b: Book, op: Op, e: Effect): int {
    match op
    case DoSubmit(r) =>
      if e.reply.Report? && !e.reply.result.status.Rejected? then
        e.reply.result.remaining - RestingQty(e.book, r.id)
      else 0
    case DoCancel(id) => RestingQty(b, id)
    case DoReduce(id, amount) => Min(amount, RestingQty(b, id))
    case DoModify(id, _, _, _) => RestingQty(b, id)
  }

  lemma TotalAt3(a: seq<Resting>, o: Resting, b: seq<Resting>)
    ensures Total(a + [o] + b) == Total(a) + o.qty + Total(b)
  {
    TotalAppend(a + [o], b);
    TotalAppend(a, [o]);
  }

  lemma InsertTotal(s: Side, os: seq<Resting>, o: Resting)
    ensures Total(Insert(s, os, o)) == Total(os) + o.qty
  {
    var k := InsertPosition(s, os, o);
    TotalAt3(os[..k], o, os[k..]);
    TotalAppend(os[..k], os[k..]);
    assert os[..k] + os[k..] == os;
  }

  lemma ChangeTotal(os: seq<Resting>, id: OrderId, qty: Quantity)
    requires Index(os, id) < |os|
    ensures Total(Remove(os, id)) == Total(os) - os[Index(os, id)].qty
    ensures Total(Resize(os, id, qty)) == Total(os) - os[Index(os, id)].qty + qty
  {
    hide Index;
    var k := Index(os, id);
    TotalAppend(os[..k], os[k + 1..]);
    TotalAt3(os[..k], os[k], os[k + 1..]);
    TotalAt3(os[..k], os[k].(qty := qty), os[k + 1..]);
    assert os == os[..k] + [os[k]] + os[k + 1..];
    assert os[k := os[k].(qty := qty)] == os[..k] + [os[k].(qty := qty)] + os[k + 1..];
  }

  lemma CancelTotal(b: Book, id: OrderId)
    ensures BookTotal(Cancel(b, id).0) == BookTotal(b) - RestingQty(b, id)
  {
    if Locate(b, id).Some? { ChangeTotal(b.On(Locate(b, id).value), id, 0); }
  }

  /** An id that was absent is found at the place it is inserted, and removing it gives the queue back. */
  lemma InsertFinds(s: Side, os: seq<Resting>, o: Resting)
    requires Absent(os, o.id)
    ensures var r := Insert(s, os, o); Index(r, o.id) < |r| && r[Index(r, o.id)] == o
    ensures Remove(Insert(s, os, o), o.id) == os
  {
    hide Insert, Index, Remove;
    var k := InsertPosition(s, os, o);
    assert Absent(os[..k], o.id);
    IndexAt(os[..k], o, os[k..]);
    assert os[..k] + os[k..] == os;
  }

  lemma {:induction false} IndexAt(a: seq<Resting>, o: Resting, b: seq<Resting>)
    requires Absent(a, o.id)
    ensures Index(a + [o] + b, o.id) == |a|
    ensures Remove(a + [o] + b, o.id) == a + b
  {
    var os := a + [o] + b;
    forall j | 0 <= j < |a| ensures os[j].id != o.id { assert os[j] == a[j]; }
    assert os[|a|] == o;
  }

  lemma RestedQty(b: Book, s: Side, o: Resting)
    requires Locate(b, o.id).None?
    ensures RestingQty(b.With(s, Insert(s, b.On(s), o)), o.id) == o.qty
    ensures Lookup(b.With(s, Insert(s, b.On(s), o)), o.id) == Some((s, o))
  {
    AbsentFromBoth(b, o.id);
    InsertFinds(s, b.On(s), o);
    var b' := b.With(s, Insert(s, b.On(s), o));
    if s.Sell? { assert Index(b'.bids, o.id) == |b'.bids|; }
  }

  /** Left over by the match phase and neither filled nor resting. */
  function LeftOver(b: Book, r: Request): nat {
    if DropsRemainder(r) then MatchRequest(b, r).remaining else 0
  }

  lemma AcceptedTotals(c: Config, b: Book, r: Request)
    requires !BadRequest(c, b, r) && !KilledEarly(b, r)
    ensures var e := Submit(c, b, r); BookTotal(e.book) + 2 * Traded(e.trades) + LeftOver(b, r) == BookTotal(b) + r.qty
  {
    hide Match, Insert, Total, Traded, BadRequest, KilledEarly;
    var m, s := MatchRequest(b, r), r.side.Opposite();
    MatchConserves(Aggressor(r.id, r.side, r.ts), b.On(s), RequestBound(r), r.qty);
    if m.remaining > 0 && !DropsRemainder(r) {
      InsertTotal(r.side, b.With(s, m.rest).On(r.side), Resting(r.id, r.price, m.remaining));
    }
  }

  /** Of an accepted order, what is not filled rests, at its price and on its side, if it is a limit order that is not
      immediate-or-cancel; otherwise it is dropped, nothing rests under the id, and its side is as it was. */
  lemma AcceptedRests(c: Config, b: Book, r: Request)
    requires WellFormed(c, b) && !BadRequest(c, b, r) && !KilledEarly(b, r)
    ensures var e := Submit(c, b, r);
      && e.result.remaining == RestingQty(e.book, r.id) + LeftOver(b, r) && !e.result.status.Rejected?
      && if r.kind.Limit? && !r.tif.IOC? && e.result.remaining > 0 then
           var o := Resting(r.id, r.price, e.result.remaining);
           Lookup(e.book, r.id) == Some((r.side, o)) && e.book.On(r.side) == Insert(r.side, b.On(r.side), o)
         else Lookup(e.book, r.id).None? && e.book.On(r.side) == b.On(r.side)
  {
    hide Match, Insert, WellFormed, KilledEarly, RestingQty, Lookup;
    var m, s := MatchRequest(b, r), r.side.Opposite();
    var matched := b.With(s, m.rest);
    MatchKeeps(c, b, r);
    NothingRests(matched, r.id);
    if m.remaining > 0 && !DropsRemainder(r) { RestedQty(matched, r.side, Resting(r.id, r.price, m.remaining)); }
  }

  lemma NothingRests(b: Book, id: OrderId)
    requires Locate(b, id).None?
    ensures RestingQty(b, id) == 0 && Lookup(b, id).None?
  {
  }

  lemma SubmitConserves(c: Config, b: Book, r: Request)
    requires WellFormed(c, b)
    ensures var e := Step(c, b, DoSubmit(r));
      BookTotal(e.book) + 2 * Traded(e.trades) + Withdrawn(b, DoSubmit(r), e) == BookTotal(b) + Entered(DoSubmit(r), e)
    ensures Withdrawn(b, DoSubmit(r), Step(c, b, DoSubmit(r))) >= 0
  {
    if BadRequest(c, b, r) {
    } else if KilledEarly(b, r) {
      NothingRests(b, r.id);
    } else {
      hide Submit, BookTotal, RestingQty, BadRequest, KilledEarly, LeftOver;
      AcceptedTotals(c, b, r);
      AcceptedRests(c, b, r);
    }
  }

  lemma ResizeTotal(b: Book, id: OrderId, qty: Quantity)
    requires Lookup(b, id).Some?
    ensures var s := Lookup(b, id).value.0;
      BookTotal(b.With(s, Resize(b.On(s), id, qty))) == BookTotal(b) - RestingQty(b, id) + qty
  {
    hide Resize, Index, Total;
    ChangeTotal(b.On(Lookup(b, id).value.0), id, qty);
  }

  lemma ReduceConserves(b: Book, id: OrderId, amount: Quantity)
    ensures BookTotal(Reduce(b, id, amount).0) == BookTotal(b) - Min(amount, RestingQty(b, id))
  {
    hide Cancel, Resize, BookTotal, Locate;
    CancelTotal(b, id);
    if Lookup(b, id).Some? {
      var (s, o) := Lookup(b, id).value;
      if amount < o.qty { ResizeTotal(b, id, o.qty - amount); }
    }
  }

  lemma ModifyConserves(c: Config, b: Book, id: OrderId, qty: Quantity, price: Price, ts: Timestamp)
    requires WellFormed(c, b)
    ensures var op := DoModify(id, qty, price, ts);
      var e := Step(c, b, op);
      BookTotal(e.book) + 2 * Traded(e.trades) + Withdrawn(b, op, e) == BookTotal(b) + Entered(op, e)
  {
    if Lookup(b, id).Some? {
      hide WellFormed, Submit, Cancel, Resize, BookTotal, RestingQty, Lookup;
      var (s, o) := Lookup(b, id).value;
      if price == o.price && 0 < qty <= o.qty {
        ResizeTotal(b, id, qty);
      } else {
        CancelTotal(b, id);
        CancelKeeps(c, b, id);
        ReplacementConserves(c, Cancel(b, id).0, Replacement(id, s, qty, price, ts));
      }
    } else {
      NothingRests(b, id);
    }
  }

  /** A GTC limit order drops nothing. */
  lemma ReplacementConserves(c: Config, b: Book, r: Request)
    requires WellFormed(c, b) && r.kind.Limit? && r.tif.GTC?
    ensures var e := Submit(c, b, r);
      BookTotal(e.book) + 2 * Traded(e.trades) == BookTotal(b) + if e.result.status.Rejected? then 0 else r.qty
  {
    if !BadRequest(c, b, r) {
      AcceptedTotals(c, b, r);
      AcceptedRests(c, b, r);
    }
  }

  /** One operation: what rests afterwards, plus twice what traded, plus what was withdrawn, is what rested
      before plus what came in. */
  lemma StepConserves(c: Config, b: Book, op: Op)
    requires WellFormed(c, b)
    ensures var e := Step(c, b, op);
      BookTotal(e.book) + 2 * Traded(e.trades) + Withdrawn(b, op, e) == BookTotal(b) + Entered(op, e)
    ensures Withdrawn(b, op, Step(c, b, op)) >= 0
  {
    hide WellFormed, Cancel, Reduce, Modify, Submit, BookTotal, RestingQty;
    match op
    case DoSubmit(r) => SubmitConserves(c, b, r);
    case DoCancel(id) => CancelTotal(b, id);
    case DoReduce(id, amount) => ReduceConserves(b, id, amount);
    case DoModify(id, qty, price, ts) => ModifyConserves(c, b, id, qty, price, ts);
  }

  /** Sums over a run. */
  function RunEntered(c: Config, b: Book, ops: seq<Op>): nat {
    if ops == [] then 0 else
      var t, op := Run(c, b, ops[..|ops| - 1]), ops[|ops| - 1];
      RunEntered(c, b, ops[..|ops| - 1]) + Entered(op, Step(c, t.book, op))
  }

  function RunWithdrawn(c: Config, b: Book, ops: seq<Op>): int {
    if ops == [] then 0 else
      var t, op := Run(c, b, ops[..|ops| - 1]), ops[|ops| - 1];
      RunWithdrawn(c, b, ops[..|ops| - 1]) + Withdrawn(t.book, op, Step(c, t.book, op))
  }

  lemma {:induction false} TradedAppend(a: seq<Trade>, b: seq<Trade>)
    ensures Traded(a + b) == Traded(a) + Traded(b)
  {
    if a == [] { assert a + b == b; } else {
      assert (a + b)[1..] == a[1..] + b;
      TradedAppend(a[1..], b);
    }
  }

  /** Over every run from the empty book: submitted = 2 x traded + withdrawn + still resting. */
  lemma {:induction false} RunConserves(c: Config, ops: seq<Op>)
    ensures var t, b := Run(c, Book([], []), ops), Book([], []);
      RunEntered(c, b, ops) == 2 * Traded(t.trades) + RunWithdrawn(c, b, ops) + BookTotal(t.book)
  {
    if ops != [] {
      var b, before, op := Book([], []), ops[..|ops| - 1], ops[|ops| - 1];
      RunConserves(c, before);
      ReachableIsWellFormed(c, before);
      var t := Run(c, b, before);
      StepConserves(c, t.book, op);
      TradedAppend(t.trades, Step(c, t.book, op).trades);
    }
  }

  // ----- laws between operations ------------------------------------------------------------------

  /** Lowering a quantity at the same price is a reduce by the difference, keeps the order's place in the
      queue, and touches no other order. */
  lemma ModifyDownIsReduce(c: Config, b: Book, id: OrderId, qty: Quantity, ts: Timestamp)
    requires Lookup(b, id).Some? && 0 < qty < Lookup(b, id).value.1.qty
    ensures var (s, o) := Lookup(b, id).value;
      var e := Modify(c, b, id, qty, o.price, ts);
      && (e.book, true) == Reduce(b, id, o.qty - qty) && e.trades == []
      && e.result == SubmitResult(Accepted, 0, qty)
      && |e.book.On(s)| == |b.On(s)| && e.book.On(s.Opposite()) == b.On(s.Opposite())
      && (forall i :: 0 <= i < |b.On(s)| ==>
            e.book.On(s)[i] == if i == Index(b.On(s), id) then o.(qty := qty) else b.On(s)[i])
  {
  }

  /** Cancelling takes back a GTC order that met nobody: the book is as it was. */
  lemma CancelUndoesSubmit(c: Config, b: Book, r: Request)
    requires WellFormed(c, b) && !BadRequest(c, b, r)
    requires r.kind.Limit? && (r.tif.GTC? || r.tif.Day? || r.tif.PostOnly?) && !WouldCross(b, r.side, r.price)
    ensures Submit(c, b, r).result == SubmitResult(Accepted, 0, r.qty) && Submit(c, b, r).trades == []
    ensures Cancel(Submit(c, b, r).book, r.id) == (b, true)
  {
    var s, o := r.side, Resting(r.id, r.price, r.qty);
    AbsentFromBoth(b, r.id);
    InsertFinds(s, b.On(s), o);
    SubmitRests(c, b, r);
    var b' := b.With(s, Insert(s, b.On(s), o));
    if s.Sell? { AbsentIndex(b'.bids, r.id); }
  }

  lemma AbsentIndex(os: seq<Resting>, id: OrderId)
    ensures Absent(os, id) <==> Index(os, id) == |os|
  {
  }

  lemma SubmitRests(c: Config, b: Book, r: Request)
    requires !BadRequest(c, b, r)
    requires r.kind.Limit? && (r.tif.GTC? || r.tif.Day? || r.tif.PostOnly?) && !WouldCross(b, r.side, r.price)
    ensures Submit(c, b, r) == Outcome(b.With(r.side, Insert(r.side, b.On(r.side), Resting(r.id, r.price, r.qty))),
                                       SubmitResult(Accepted, 0, r.qty), [])
  {
    hide Insert;
    var m := MatchRequest(b, r);
    assert b.With(r.side.Opposite(), m.rest) == b;
  }

  /** Price-time priority of a resting order: exactly the orders at its price or better are ahead of it. */
  lemma InsertPriority(s: Side, os: seq<Resting>, o: Resting)
    requires Sorted(s, os) && Absent(os, o.id)
    ensures var r := Insert(s, os, o);
      var k := Index(r, o.id);
      && k <= |os| && r == os[..k] + [o] + os[k..]
      && forall j :: 0 <= j < |os| ==> (j < k <==> !Ahead(s, o.price, os[j].price))
  {
    hide Insert, Index;
    var k := InsertPosition(s, os, o);
    assert Absent(os[..k], o.id);
    IndexAt(os[..k], o, os[k..]);
    forall j | k < j < |os| ensures Ahead(s, o.price, os[j].price) {
      assert !Ahead(s, os[j].price, os[k].price);
    }
  }

  /** Any other modify that meets nobody sends the order, same side and id, to the back of its price. */
  lemma ModifyLosesPriority(c: Config, b: Book, id: OrderId, qty: Quantity, price: Price, ts: Timestamp)
    requires WellFormed(c, b) && id != INVALID_ORDER_ID && Lookup(b, id).Some? && qty > 0 && c.InRange(price)
    requires price != Lookup(b, id).value.1.price || qty > Lookup(b, id).value.1.qty
    requires !WouldCross(Cancel(b, id).0, Lookup(b, id).value.0, price)
    ensures var e, s := Modify(c, b, id, qty, price, ts), Lookup(b, id).value.0;
      var rest, k := Remove(b.On(s), id), Index(e.book.On(s), id);
      && e.result == SubmitResult(Accepted, 0, qty) && e.trades == []
      && e.book.On(s.Opposite()) == b.On(s.Opposite())
      && k <= |rest| && e.book.On(s) == rest[..k] + [Resting(id, price, qty)] + rest[k..]
      && forall j :: 0 <= j < |rest| ==> (j < k <==> !Ahead(s, price, rest[j].price))
  {
    hide Insert, Index, Match, Remove, Sound, DistinctIds, NoSharedIds, Uncrossed;
    var s, b' := Lookup(b, id).value.0, Cancel(b, id).0;
    CancelKeeps(c, b, id);
    AbsentFromBoth(b', id);
    SubmitRests(c, b', Replacement(id, s, qty, price, ts));
    InsertPriority(s, b'.On(s), Resting(id, price, qty));
  }

  /** A modify is rejected exactly when the id is unknown, the new quantity is zero or the new price is off the
      ladder. Whichever it is, the order, if there was one, has been cancelled by then: a rejected modify
      changes the book exactly when it named a resting order. */
  lemma RejectedModify(c: Config, b: Book, id: OrderId, qty: Quantity, price: Price, ts: Timestamp)
    requires WellFormed(c, b)
    ensures var e := Modify(c, b, id, qty, price, ts);
      && (e.result.status.Rejected? <==> Lookup(b, id).None? || qty == 0 || !c.InRange(price))
      && (e.result.status.Rejected? ==> e == Outcome(Cancel(b, id).0, SubmitResult(Rejected, 0, 0), []))
      && (e.result.status.Rejected? && e.book != b <==> Lookup(b, id).Some? && (qty == 0 || !c.InRange(price)))
  {
    if Lookup(b, id).Some? {
      var s, o := Lookup(b, id).value.0, Lookup(b, id).value.1;
      var b', r := Cancel(b, id).0, Replacement(id, s, qty, price, ts);
      CancelKeeps(c, b, id);
      assert |b'.On(s)| == |b.On(s)| - 1;
      ListedPrice(c, b, id);
      if BadRequest(c, b', r) { RejectedUnchanged(c, b', r); } else { SubmitReports(c, b', r); }
    }
  }

  lemma ListedPrice(c: Config, b: Book, id: OrderId)
    requires WellFormed(c, b) && Lookup(b, id).Some?
    ensures id != INVALID_ORDER_ID && c.InRange(Lookup(b, id).value.1.price)
  {
  }

  /** One resting order modified to quantity zero: rejected, and gone. */
  lemma RejectedModifyCancels(c: Config)
    requires c.InRange(5)
    ensures var b := Book([Resting(1, 5, 10)], []);
      && Run(c, Book([], []), [DoSubmit(Request(1, Buy, Limit, GTC, 5, 10, 0))]).book == b
      && Modify(c, b, 1, 0, 5, 0) == Outcome(Book([], []), SubmitResult(Rejected, 0, 0), [])
  {
    var op := DoSubmit(Request(1, Buy, Limit, GTC, 5, 10, 0));
    assert [op][..0] == [] && Insert(Buy, [], Resting(1, 5, 10)) == [Resting(1, 5, 10)];
    assert Index([Resting(1, 5, 10)], 1) == 0 && Remove([Resting(1, 5, 10)], 1) == [];
  }

  lemma RunOneMore(c: Config, b: Book, ops: seq<Op>, op: Op)
    ensures var t := Run(c, b, ops);
      var e := Step(c, t.book, op);
      Run(c, b, ops + [op]) == Trace(e.book, t.replies + [e.reply], t.trades + e.trades)
  {
    assert (ops + [op])[..|ops|] == ops;
  }

  lemma TwoOnOneLevel()
    ensures var x, y := Resting(1, 5, 0x8000_0000), Resting(2, 5, 0x8000_0000);
      Insert(Sell, [], x) == [x] && Insert(Sell, [x], y) == [x, y] && Index([x], 2) == 1
  {
    var x, y := Resting(1, 5, 0x8000_0000), Resting(2, 5, 0x8000_0000);
    assert [x][1..] == [] && Insert(Sell, [], y) == [y] && [x] + [y] == [x, y];
  }

  lemma TwoSellsRest(c: Config, x: Request, y: Request)
    requires c.InRange(5)
    requires x == Request(1, Sell, Limit, GTC, 5, 0x8000_0000, 0)
    requires y == Request(2, Sell, Limit, GTC, 5, 0x8000_0000, 0)
    ensures var o, rested := Resting(1, 5, 0x8000_0000), SubmitResult(Accepted, 0, 0x8000_0000);
      && Submit(c, Book([], []), x) == Outcome(Book([], [o]), rested, [])
      && Submit(c, Book([], [o]), y) == Outcome(Book([], [o, Resting(2, 5, 0x8000_0000)]), rested, [])
  {
    hide Submit, Insert, Index;
    TwoOnOneLevel();
    SubmitRests(c, Book([], []), x);
    SubmitRests(c, Book([], [Resting(1, 5, 0x8000_0000)]), y);
  }

  /** The book of FokKilledByOverflow is reached: two submits rest, and the FOK is killed in front of them. */
  lemma FokOverflowIsReached(c: Config)
    requires c.Valid() && c.InRange(5)
    ensures var ops := [DoSubmit(Request(1, Sell, Limit, GTC, 5, 0x8000_0000, 0))]
                     + [DoSubmit(Request(2, Sell, Limit, GTC, 5, 0x8000_0000, 0))]
                     + [DoSubmit(Request(3, Buy, Limit, FOK, 5, 1, 0))];
      var rested := Report(SubmitResult(Accepted, 0, 0x8000_0000));
      Run(c, Book([], []), ops) ==
        Trace(Book([], [Resting(1, 5, 0x8000_0000), Resting(2, 5, 0x8000_0000)]),
              [rested] + [rested] + [Report(SubmitResult(Cancelled, 0, 1))], [])
  {
    hide Submit, Insert, Index, WellFormed, Liquidity;
    var x, y := Request(1, Sell, Limit, GTC, 5, 0x8000_0000, 0), Request(2, Sell, Limit, GTC, 5, 0x8000_0000, 0);
    var r, b0 := Request(3, Buy, Limit, FOK, 5, 1, 0), Book([], []);
    TwoSellsRest(c, x, y);
    FokKilledByOverflow(c, r);
    var none: seq<Trade> := [];
    assert none + none == none;
    assert [] + [DoSubmit(x)] == [DoSubmit(x)];
    RunOneMore(c, b0, [], DoSubmit(x));
    RunOneMore(c, b0, [DoSubmit(x)], DoSubmit(y));
    RunOneMore(c, b0, [DoSubmit(x)] + [DoSubmit(y)], DoSubmit(r));
  }
}
