/** Time priority over whole runs: within a price, orders stand in the order in which they arrived. */
module NaivePriority {
  import opened LobTypes
  import opened NaiveBook
  import opened NaiveLaws
  import opened NaiveRuns

  /** The id an operation sends to the back of a queue: that of a submit not already resting, and that of a
      modify not handled in place. */
  function Joins(b: Book, op: Op): Option<OrderId> {
    match op
    case DoSubmit(r) => if Locate(b, r.id).None? then Some(r.id) else None
    case DoModify(id, qty, price, _) =>
      var o := Lookup(b, id);
      if o.None? || (price == o.value.1.price && 0 < qty <= o.value.1.qty) then None else Some(id)
    case _ => None
  }

  /** For each id, the index of the operation of the run at which it last joined the back of a queue. */
  function Arrival(c: Config, ops: seq<Op>): map<OrderId, nat> {
    if ops == [] then map[]
    else
      var before, now := ops[..|ops| - 1], |ops| - 1;
      var earlier, id := Arrival(c, before), Joins(Run(c, Book([], []), before).book, ops[now]);
      if id.None? then earlier else earlier[id.value := now]
  }

  /** Every order of the queue arrived before `now`, and within a price the one in front arrived first. */
  ghost predicate InTimeOrder(os: seq<Resting>, arrival: map<OrderId, nat>, now: nat) {
    && (forall i :: 0 <= i < |os| ==> os[i].id in arrival && arrival[os[i].id] < now)
    && (forall i, j :: 0 <= i < j < |os| && os[i].price == os[j].price ==> arrival[os[i].id] < arrival[os[j].id])
  }

  lemma TimeThinned(os: seq<Resting>, os': seq<Resting>, at: seq<nat>, arrival: map<OrderId, nat>, now: nat)
    requires InTimeOrder(os, arrival, now) && Thinned(os, os', at)
    ensures InTimeOrder(os', arrival, now)
  {
  }

  /** Time passes, and an id that does not rest here may arrive elsewhere. */
  lemma TimePasses(os: seq<Resting>, arrival: map<OrderId, nat>, now: nat, id: OrderId)
    requires InTimeOrder(os, arrival, now)
    ensures InTimeOrder(os, arrival, now + 1)
    ensures Absent(os, id) ==> InTimeOrder(os, arrival[id := now], now + 1)
  {
  }

  lemma TimeJoined(os: seq<Resting>, k: nat, o: Resting, arrival: map<OrderId, nat>, now: nat)
    requires InTimeOrder(os, arrival, now + 1) && k <= |os|
    requires o.id in arrival && arrival[o.id] == now
    requires forall i :: 0 <= i < |os| ==> arrival[os[i].id] < now
    requires forall i :: k <= i < |os| ==> os[i].price != o.price
    ensures InTimeOrder(os[..k] + [o] + os[k..], arrival, now + 1)
  {
    var r := os[..k] + [o] + os[k..];
    forall i | 0 <= i < |r| ensures r[i] == if i < k then os[i] else if i == k then o else os[i - 1] {
    }
  }

  /** The order that joins stands behind all earlier ones at its price. */
  lemma TimeInserted(s: Side, os: seq<Resting>, o: Resting, arrival: map<OrderId, nat>, now: nat)
    requires InTimeOrder(os, arrival, now) && Sorted(s, os) && Absent(os, o.id)
    ensures InTimeOrder(Insert(s, os, o), arrival[o.id := now], now + 1)
  {
    hide Insert, Index, Sorted;
    InsertPriority(s, os, o);
    var k := Index(Insert(s, os, o), o.id);
    TimePasses(os, arrival, now, o.id);
    forall i | k <= i < |os| ensures os[i].price != o.price { assert Ahead(s, o.price, os[i].price); }
    TimeJoined(os, k, o, arrival[o.id := now], now);
  }

  ghost predicate BookInTimeOrder(b: Book, arrival: map<OrderId, nat>, now: nat) {
    InTimeOrder(b.bids, arrival, now) && InTimeOrder(b.asks, arrival, now)
  }

  lemma BookTimePasses(b: Book, arrival: map<OrderId, nat>, now: nat, id: OrderId)
    requires BookInTimeOrder(b, arrival, now)
    ensures BookInTimeOrder(b, arrival, now + 1)
    ensures Locate(b, id).None? ==> BookInTimeOrder(b, arrival[id := now], now + 1)
  {
    hide InTimeOrder;
    AbsentFromBoth(b, id);
    TimePasses(b.bids, arrival, now, id);
    TimePasses(b.asks, arrival, now, id);
  }

  /** An order that rests joins its side behind its price; the other side only sees time pass. */
  lemma RestInTime(c: Config, b: Book, s: Side, o: Resting, arrival: map<OrderId, nat>, now: nat)
    requires WellFormed(c, b) && BookInTimeOrder(b, arrival, now) && Locate(b, o.id).None?
    ensures BookInTimeOrder(b.With(s, Insert(s, b.On(s), o)), arrival[o.id := now], now + 1)
  {
    hide InTimeOrder, Sorted, Sound, DistinctIds, NoSharedIds, Uncrossed, Locate, Insert;
    AbsentFromBoth(b, o.id);
    TimeInserted(s, b.On(s), o, arrival, now);
    TimePasses(b.On(s.Opposite()), arrival, now, o.id);
  }

  lemma MatchInTime(c: Config, b: Book, r: Request, arrival: map<OrderId, nat>, now: nat)
    requires WellFormed(c, b) && BookInTimeOrder(b, arrival, now)
    ensures BookInTimeOrder(b.With(r.side.Opposite(), MatchRequest(b, r).rest), arrival, now)
  {
    hide InTimeOrder, Match, Sorted, DistinctIds, NoSharedIds, Uncrossed, Sound;
    var os := b.On(r.side.Opposite());
    SoundPositive(c, os);
    var at := MatchThins(Aggressor(r.id, r.side, r.ts), os, RequestBound(r), r.qty);
    TimeThinned(os, MatchRequest(b, r).rest, at, arrival, now);
  }

  lemma SubmitInTime(c: Config, b: Book, r: Request, arrival: map<OrderId, nat>, now: nat)
    requires WellFormed(c, b) && BookInTimeOrder(b, arrival, now)
    ensures var later := if Locate(b, r.id).None? then arrival[r.id := now] else arrival;
      BookInTimeOrder(Submit(c, b, r).book, later, now + 1)
  {
    hide WellFormed, BookInTimeOrder, MatchRequest, Insert, Locate, KilledEarly;
    BookTimePasses(b, arrival, now, r.id);
    if !BadRequest(c, b, r) && !KilledEarly(b, r) {
      var m := MatchRequest(b, r);
      var matched := b.With(r.side.Opposite(), m.rest);
      MatchInTime(c, b, r, arrival, now);
      MatchKeeps(c, b, r);
      BookTimePasses(matched, arrival, now, r.id);
      if m.remaining > 0 { RestInTime(c, matched, r.side, Resting(r.id, r.price, m.remaining), arrival, now); }
    }
  }

  lemma CancelInTime(c: Config, b: Book, id: OrderId, arrival: map<OrderId, nat>, now: nat)
    requires WellFormed(c, b) && BookInTimeOrder(b, arrival, now)
    ensures BookInTimeOrder(Cancel(b, id).0, arrival, now)
  {
    hide InTimeOrder, Remove, Sorted, DistinctIds, NoSharedIds, Uncrossed, Sound;
    if Locate(b, id).Some? {
      var os := b.On(Locate(b, id).value);
      SoundPositive(c, os);
      var at := RemoveThins(os, id);
      TimeThinned(os, Remove(os, id), at, arrival, now);
    }
  }

  lemma ResizeInTime(c: Config, b: Book, s: Side, id: OrderId, qty: Quantity, arrival: map<OrderId, nat>, now: nat)
    requires WellFormed(c, b) && BookInTimeOrder(b, arrival, now) && qty > 0
    ensures BookInTimeOrder(b.With(s, Resize(b.On(s), id, qty)), arrival, now)
  {
    hide InTimeOrder, Resize, Sorted, DistinctIds, NoSharedIds, Uncrossed, Sound;
    SoundPositive(c, b.On(s));
    var at := ResizeThins(b.On(s), id, qty);
    TimeThinned(b.On(s), Resize(b.On(s), id, qty), at, arrival, now);
  }

  lemma ModifyInTime(c: Config, b: Book, id: OrderId, qty: Quantity, price: Price, ts: Timestamp,
                     arrival: map<OrderId, nat>, now: nat)
    requires WellFormed(c, b) && BookInTimeOrder(b, arrival, now)
    ensures var joined := Joins(b, DoModify(id, qty, price, ts));
      var later := if joined.None? then arrival else arrival[joined.value := now];
      BookInTimeOrder(Modify(c, b, id, qty, price, ts).book, later, now + 1)
  {
    hide WellFormed, BookInTimeOrder, Cancel, Resize, Submit;
    if Lookup(b, id).Some? {
      var (s, o) := Lookup(b, id).value;
      if price == o.price && 0 < qty <= o.qty {
        ResizeInTime(c, b, s, id, qty, arrival, now);
        BookTimePasses(b.With(s, Resize(b.On(s), id, qty)), arrival, now, id);
      } else {
        CancelInTime(c, b, id, arrival, now);
        CancelKeeps(c, b, id);
        SubmitInTime(c, Cancel(b, id).0, Replacement(id, s, qty, price, ts), arrival, now);
      }
    } else {
      BookTimePasses(b, arrival, now, id);
    }
  }

  lemma ReduceInTime(c: Config, b: Book, id: OrderId, amount: Quantity, arrival: map<OrderId, nat>, now: nat)
    requires WellFormed(c, b) && BookInTimeOrder(b, arrival, now)
    ensures BookInTimeOrder(Reduce(b, id, amount).0, arrival, now)
  {
    hide WellFormed, BookInTimeOrder, Cancel, Resize, Locate;
    CancelInTime(c, b, id, arrival, now);
    if Lookup(b, id).Some? {
      var (s, o) := Lookup(b, id).value;
      if amount < o.qty { ResizeInTime(c, b, s, id, o.qty - amount, arrival, now); }
    }
  }

  lemma StepInTime(c: Config, b: Book, op: Op, arrival: map<OrderId, nat>, now: nat)
    requires WellFormed(c, b) && BookInTimeOrder(b, arrival, now)
    ensures var joined := Joins(b, op);
      BookInTimeOrder(Step(c, b, op).book, if joined.None? then arrival else arrival[joined.value := now], now + 1)
  {
    hide WellFormed, BookInTimeOrder, Cancel, Reduce, Modify, Submit, Locate, Lookup;
    match op
    case DoSubmit(r) => SubmitInTime(c, b, r, arrival, now);
    case DoCancel(id) =>
      CancelInTime(c, b, id, arrival, now);
      BookTimePasses(Cancel(b, id).0, arrival, now, id);
    case DoReduce(id, amount) =>
      ReduceInTime(c, b, id, amount, arrival, now);
      BookTimePasses(Reduce(b, id, amount).0, arrival, now, id);
    case DoModify(id, qty, price, ts) => ModifyInTime(c, b, id, qty, price, ts, arrival, now);
  }

  /** Over every run from the empty book, within each price of each side the orders stand by arrival. */
  lemma {:induction false} ReachableIsInTimeOrder(c: Config, ops: seq<Op>)
    ensures BookInTimeOrder(Run(c, Book([], []), ops).book, Arrival(c, ops), |ops|)
  {
    hide WellFormed, InTimeOrder, Step, Joins;
    if ops == [] {
      NobodyWaits();
    } else {
      var before := ops[..|ops| - 1];
      ReachableIsInTimeOrder(c, before);
      ReachableIsWellFormed(c, before);
      StepInTime(c, Run(c, Book([], []), before).book, ops[|ops| - 1], Arrival(c, before), |before|);
    }
  }

  lemma NobodyWaits()
    ensures InTimeOrder([], map[], 0)
  {
  }

  /** Price-time priority, said outright of two orders of one side of a reachable book: the one in front has the
      better price, or the same price and the earlier arrival. */
  lemma PriceTimePriority(c: Config, ops: seq<Op>, s: Side, i: nat, j: nat)
    requires var os := Run(c, Book([], []), ops).book.On(s); i < j < |os|
    ensures var os, arrival := Run(c, Book([], []), ops).book.On(s), Arrival(c, ops);
      && os[i].id in arrival && os[j].id in arrival
      && (Ahead(s, os[i].price, os[j].price) || (os[i].price == os[j].price && arrival[os[i].id] < arrival[os[j].id]))
  {
    hide Run, Arrival;
    ReachableIsWellFormed(c, ops);
    ReachableIsInTimeOrder(c, ops);
  }
}
