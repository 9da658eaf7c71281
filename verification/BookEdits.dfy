/** What each operation on the book does to the id index: the ids that leave it and the ids that come, in order. */
module BookEdits {
  import opened LobTypes
  import opened NaiveBook
  import opened NaiveLaws
  import opened NaiveRuns
  import opened OrderIdMaps
  import opened Words

  /** The orders a match consumes whole, front first. */
  function Emptied(a: Aggressor, os: seq<Resting>, bound: Bound, qty: Quantity): seq<Edit> {
    if qty == 0 || os == [] || !Reaches(a.side, bound, os[0].price) || qty < os[0].qty then []
    else [Gone(os[0].id)] + Emptied(a, os[1..], bound, qty - os[0].qty)
  }

  function MatchEdits(b: Book, r: Request): seq<Edit> {
    Emptied(Aggressor(r.id, r.side, r.ts), b.On(r.side.Opposite()), RequestBound(r), r.qty)
  }

  function RestEdits(b: Book, r: Request): seq<Edit> {
    if MatchRequest(b, r).remaining > 0 && !DropsRemainder(r) then [Came(r.id)] else []
  }

  function SubmitEdits(c: Config, b: Book, r: Request): seq<Edit> {
    if BadRequest(c, b, r) || KilledEarly(b, r) then [] else MatchEdits(b, r) + RestEdits(b, r)
  }

  function CancelEdits(b: Book, id: OrderId): seq<Edit> {
    if Locate(b, id).Some? then [Gone(id)] else []
  }

  function ReduceEdits(b: Book, id: OrderId, amount: Quantity): seq<Edit> {
    match Lookup(b, id)
    case None => []
    case Some((_, o)) => if amount >= o.qty then CancelEdits(b, id) else []
  }

  function ModifyEdits(c: Config, b: Book, id: OrderId, qty: Quantity, price: Price, ts: Timestamp): seq<Edit> {
    match Lookup(b, id)
    case None => []
    case Some((s, o)) =>
      if price == o.price && 0 < qty <= o.qty then []
      else CancelEdits(b, id) + SubmitEdits(c, Cancel(b, id).0, Replacement(id, s, qty, price, ts))
  }

  function OpEdits(c: Config, b: Book, op: Op): seq<Edit> {
    match op
    case DoSubmit(r) => SubmitEdits(c, b, r)
    case DoCancel(id) => CancelEdits(b, id)
    case DoReduce(id, amount) => ReduceEdits(b, id, amount)
    case DoModify(id, qty, price, ts) => ModifyEdits(c, b, id, qty, price, ts)
  }

  function RunEdits(c: Config, b: Book, ops: seq<Op>): seq<Edit>
    decreases |ops|
  {
    if ops == [] then [] else OpEdits(c, b, ops[0]) + RunEdits(c, Step(c, b, ops[0]).book, ops[1..])
  }

  /** The id index of a new engine. */
  function FreshTable(c: Config): (t: Table)
    requires c.Valid()
    ensures |t| > 0
  {
    RoundUpIsLeast(2 * c.maxOrders);
    seq(RoundUpPow2(2 * c.maxOrders), _ => Entry(INVALID_ORDER_ID, NULL))
  }

  /** A run that loses no order: with the intended erase any, with the coded one a run whose erases are all safe. */
  ghost predicate Harmless(c: Config, hash: Hash, backshift: Backshift, edits: seq<Edit>)
    requires c.Valid()
  {
    backshift.AsIntended? || SafeEdits(hash, FreshTable(c), edits)
  }

  /** What one fill of the front order by qty erases, and what it leaves of the queue. */
  function FrontEdits(os: seq<Resting>, qty: Quantity): seq<Edit>
    requires os != []
  {
    if qty < os[0].qty then [] else [Gone(os[0].id)]
  }

  function FrontRest(os: seq<Resting>, qty: Quantity): seq<Resting>
    requires os != []
  {
    if qty < os[0].qty then [os[0].(qty := os[0].qty - qty)] + os[1..] else os[1..]
  }

  lemma EmptiedFront(a: Aggressor, os: seq<Resting>, bound: Bound, qty: Quantity)
    requires os != [] && qty > 0 && Reaches(a.side, bound, os[0].price)
    ensures Emptied(a, os, bound, qty) ==
      FrontEdits(os, qty) + Emptied(a, FrontRest(os, qty), bound, qty - Min(qty, os[0].qty))
  {
  }

  lemma EmptiedEnd(a: Aggressor, os: seq<Resting>, bound: Bound, qty: Quantity, more: seq<Edit>)
    requires qty == 0 || os == [] || !Reaches(a.side, bound, os[0].price)
    ensures Emptied(a, os, bound, qty) + more == more
  {
  }

  lemma Regroup(x: seq<Edit>, y: seq<Edit>, z: seq<Edit>)
    ensures (x + y) + z == x + (y + z) && [] + z == z
  {
  }

  // ----- the edits of a run are what an id index expects ---------------------------------

  ghost function IdsOf(os: seq<Resting>): (ids: set<OrderId>)
    ensures |ids| <= |os|
    ensures forall id :: id in ids <==> !Absent(os, id)
  {
    if os == [] then {}
    else
      assert forall id :: Absent(os, id) <==> os[0].id != id && Absent(os[1..], id) by { AbsentStep(os); }
      {os[0].id} + IdsOf(os[1..])
  }

  lemma AbsentStep(os: seq<Resting>)
    requires os != []
    ensures forall id :: Absent(os, id) <==> os[0].id != id && Absent(os[1..], id)
  {
    assert forall i :: 0 < i < |os| ==> os[i] == os[1..][i - 1];
  }

  ghost function Ids(b: Book): set<OrderId> {
    IdsOf(b.bids) + IdsOf(b.asks)
  }

  lemma IdsLocate(b: Book)
    ensures forall id :: id in Ids(b) <==> Locate(b, id).Some?
    ensures |Ids(b)| <= b.Size()
  {
    forall id: OrderId ensures id in Ids(b) <==> Locate(b, id).Some? { AbsentFromBoth(b, id); }
  }

  lemma {:induction false} EmptiedLegal(a: Aggressor, os: seq<Resting>, bound: Bound, qty: Quantity,
                                        other: set<OrderId>, more: seq<Edit>, cap: nat)
    requires DistinctIds(os) && (forall i :: 0 <= i < |os| ==> os[i].id !in other)
    requires Legal(IdsOf(Match(a, os, bound, qty).rest) + other, more, cap)
    ensures Legal(IdsOf(os) + other, Emptied(a, os, bound, qty) + more, cap)
  {
    hide IdsOf, Legal, Absent;
    if qty == 0 || os == [] || !Reaches(a.side, bound, os[0].price) {
      Regroup([], [], more);
    } else if qty < os[0].qty {
      Regroup([], [], more);
      SameIds(os[0], os[0].(qty := os[0].qty - qty), os[1..]);
      assert [os[0]] + os[1..] == os;
    } else {
      EmptiedLegal(a, os[1..], bound, qty - os[0].qty, other, more, cap);
      GoneLegal(os, other, Emptied(a, os[1..], bound, qty - os[0].qty), more, cap);
    }
  }

  lemma SameIds(o: Resting, o': Resting, os: seq<Resting>)
    requires o.id == o'.id
    ensures IdsOf([o] + os) == IdsOf([o'] + os)
  {
    assert ([o] + os)[1..] == os && ([o'] + os)[1..] == os;
  }

  lemma GoneLegal(os: seq<Resting>, other: set<OrderId>, edits: seq<Edit>, more: seq<Edit>, cap: nat)
    requires os != [] && DistinctIds(os) && os[0].id !in other
    requires Legal(IdsOf(os[1..]) + other, edits + more, cap)
    ensures Legal(IdsOf(os) + other, ([Gone(os[0].id)] + edits) + more, cap)
  {
    var id := os[0].id;
    FrontId(os);
    assert IdsOf(os) + other - {id} == IdsOf(os[1..]) + other by { hide *; }
    hide IdsOf, Absent, DistinctIds;
    Regroup([Gone(id)], edits, more);
    assert ([Gone(id)] + (edits + more))[1..] == edits + more;
  }

  lemma FrontId(os: seq<Resting>)
    requires os != [] && DistinctIds(os)
    ensures IdsOf(os) == {os[0].id} + IdsOf(os[1..]) && os[0].id !in IdsOf(os[1..])
  {
    assert Absent(os[1..], os[0].id);
  }

  lemma IdsChange(b: Book, b': Book, id: OrderId)
    requires forall x: OrderId :: x != id ==> (Locate(b', x).Some? <==> Locate(b, x).Some?)
    ensures Locate(b, id).Some? && Locate(b', id).None? ==> Ids(b') == Ids(b) - {id}
    ensures Locate(b, id).None? && Locate(b', id).Some? ==> Ids(b') == Ids(b) + {id}
    ensures (Locate(b, id).Some? <==> Locate(b', id).Some?) ==> Ids(b') == Ids(b)
  {
    hide Ids, Locate;
    IdsLocate(b);
    IdsLocate(b');
  }

  lemma RemoveOthers(os: seq<Resting>, id: OrderId, x: OrderId)
    ensures Absent(os, x) ==> Absent(Remove(os, id), x)
    ensures x != id ==> (Absent(Remove(os, id), x) <==> Absent(os, x))
  {
    hide Index;
    var k, r := Index(os, id), Remove(os, id);
    forall i | 0 <= i < |r| ensures r[i] == os[if i < k then i else i + 1] {
    }
    if i :| 0 <= i < |os| && os[i].id == x && x != id { assert r[if i < k then i else i - 1].id == x; }
  }

  lemma ResizeOthers(os: seq<Resting>, id: OrderId, qty: Quantity, x: OrderId)
    ensures Absent(Resize(os, id, qty), x) <==> Absent(os, x)
  {
    hide Index;
    var k, r := Index(os, id), Resize(os, id, qty);
    forall i | 0 <= i < |os| ensures r[i].id == os[i].id {
    }
  }

  lemma InsertOthers(s: Side, os: seq<Resting>, o: Resting, x: OrderId)
    ensures Absent(Insert(s, os, o), x) <==> x != o.id && Absent(os, x)
  {
    hide Insert;
    var k := InsertPosition(s, os, o);
    var r := Insert(s, os, o);
    assert r[k] == o;
    forall i | 0 <= i < |os| ensures os[i] == r[if i < k then i else i + 1] {
    }
  }

  lemma CancelIdSet(c: Config, b: Book, id: OrderId)
    requires WellFormed(c, b)
    ensures Ids(Cancel(b, id).0) == Ids(b) - {id}
  {
    hide Remove, WellFormed;
    var b' := Cancel(b, id).0;
    forall x: OrderId | x != id ensures Locate(b', x).Some? <==> Locate(b, x).Some? {
      AbsentFromBoth(b, x);
      AbsentFromBoth(b', x);
      RemoveOthers(b.bids, id, x);
      RemoveOthers(b.asks, id, x);
    }
    CancelKeeps(c, b, id);
    IdsLocate(b);
    IdsChange(b, b', id);
  }

  /** Whatever the book, a cancel or a reduce brings no id in. */
  lemma CancelIdsWithin(b: Book, id: OrderId)
    ensures Ids(Cancel(b, id).0) <= Ids(b)
  {
    hide Remove, Ids;
    var b' := Cancel(b, id).0;
    forall x: OrderId | Locate(b', x).Some? ensures Locate(b, x).Some? {
      AbsentFromBoth(b, x);
      AbsentFromBoth(b', x);
      RemoveOthers(b.bids, id, x);
      RemoveOthers(b.asks, id, x);
    }
    hide Locate, Cancel;
    IdsLocate(b);
    IdsLocate(b');
  }

  lemma ReduceIdsWithin(b: Book, id: OrderId, amount: Quantity)
    ensures Ids(Reduce(b, id, amount).0) <= Ids(b)
  {
    hide Resize, Cancel, Ids, Lookup;
    CancelIdsWithin(b, id);
    if Lookup(b, id).Some? && amount < Lookup(b, id).value.1.qty {
      var (s, o) := Lookup(b, id).value;
      ResizeIdSet(b, s, id, o.qty - amount);
    }
  }

  lemma ResizeIdSet(b: Book, s: Side, id: OrderId, qty: Quantity)
    ensures Ids(b.With(s, Resize(b.On(s), id, qty))) == Ids(b)
  {
    hide Resize, Locate;
    var b' := b.With(s, Resize(b.On(s), id, qty));
    forall x: OrderId ensures Locate(b', x).Some? <==> Locate(b, x).Some? {
      AbsentFromBoth(b, x);
      AbsentFromBoth(b', x);
      ResizeOthers(b.On(s), id, qty, x);
    }
    IdsChange(b, b', id);
  }

  lemma InsertIdSet(b: Book, s: Side, o: Resting)
    ensures Ids(b.With(s, Insert(s, b.On(s), o))) == Ids(b) + {o.id}
  {
    hide Insert, Locate;
    var b' := b.With(s, Insert(s, b.On(s), o));
    hide Ids;
    forall x: OrderId ensures Locate(b', x).Some? <==> x in {o.id} || Locate(b, x).Some? {
      AbsentFromBoth(b, x);
      AbsentFromBoth(b', x);
      InsertOthers(s, b.On(s), o, x);
    }
    IdsAre(b, b', {o.id});
  }

  /** A book that locates what another does, and the ids of `extra`, has its ids and those. */
  lemma IdsAre(b: Book, b': Book, extra: set<OrderId>)
    requires forall x: OrderId :: Locate(b', x).Some? <==> x in extra || Locate(b, x).Some?
    ensures Ids(b') == Ids(b) + extra
  {
    hide Ids, Locate;
    IdsLocate(b);
    IdsLocate(b');
  }

  /** An order of one side is not on the other. */
  lemma OtherSideIds(b: Book, s: Side)
    requires NoSharedIds(b)
    ensures forall i :: 0 <= i < |b.On(s)| ==> b.On(s)[i].id !in IdsOf(b.On(s.Opposite()))
  {
    hide IdsOf;
    forall i | 0 <= i < |b.On(s)| ensures b.On(s)[i].id !in IdsOf(b.On(s.Opposite())) {
      assert Absent(b.On(s.Opposite()), b.On(s)[i].id);
    }
  }

  lemma IdsBySide(b: Book, s: Side)
    ensures Ids(b) == IdsOf(b.On(s)) + IdsOf(b.On(s.Opposite()))
  {
    hide IdsOf;
  }

  lemma MatchLegal(c: Config, b: Book, r: Request, more: seq<Edit>, cap: nat)
    requires WellFormed(c, b)
    requires Legal(Ids(b.With(r.side.Opposite(), MatchRequest(b, r).rest)), more, cap)
    ensures Legal(Ids(b), MatchEdits(b, r) + more, cap)
  {
    hide Emptied, Match, Legal, Ids, IdsOf, Sorted, Sound, DistinctIds, NoSharedIds, Uncrossed;
    var s := r.side.Opposite();
    OtherSideIds(b, s);
    IdsBySide(b, s);
    IdsBySide(b.With(s, MatchRequest(b, r).rest), s);
    EmptiedLegal(Aggressor(r.id, r.side, r.ts), b.On(s), RequestBound(r), r.qty, IdsOf(b.On(r.side)), more, cap);
  }

  lemma SubmitLegal(c: Config, b: Book, r: Request, more: seq<Edit>, cap: nat)
    requires WellFormed(c, b) && Submit(c, b, r).book.Size() < cap
    requires Legal(Ids(Submit(c, b, r).book), more, cap)
    ensures Legal(Ids(b), SubmitEdits(c, b, r) + more, cap)
  {
    hide WellFormed, MatchEdits, MatchRequest, Insert, Locate, KilledEarly, Ids;
    Regroup([], [], more);
    if !BadRequest(c, b, r) && !KilledEarly(b, r) {
      var m := MatchRequest(b, r);
      var matched := b.With(r.side.Opposite(), m.rest);
      MatchKeeps(c, b, r);
      Regroup(MatchEdits(b, r), RestEdits(b, r), more);
      if m.remaining > 0 && !DropsRemainder(r) {
        var o := Resting(r.id, r.price, m.remaining);
        InsertIdSet(matched, r.side, o);
        InsertLength(r.side, matched.On(r.side), o);
        IdsLocate(matched);
        assert ([Came(r.id)] + more)[1..] == more;
        MatchLegal(c, b, r, [Came(r.id)] + more, cap);
      } else {
        Regroup(MatchEdits(b, r), [], more);
        MatchLegal(c, b, r, more, cap);
      }
    }
  }

  lemma CancelLegal(c: Config, b: Book, id: OrderId, more: seq<Edit>, cap: nat)
    requires WellFormed(c, b) && Legal(Ids(Cancel(b, id).0), more, cap)
    ensures Legal(Ids(b), CancelEdits(b, id) + more, cap)
  {
    hide WellFormed, Ids, Cancel;
    CancelIdSet(c, b, id);
    IdsLocate(b);
    Regroup([], [], more);
    if Locate(b, id).Some? {
      assert ([Gone(id)] + more)[1..] == more;
    } else {
      assert Ids(b) - {id} == Ids(b);
    }
  }

  lemma OpLegal(c: Config, b: Book, op: Op, more: seq<Edit>, cap: nat)
    requires WellFormed(c, b) && Step(c, b, op).book.Size() < cap
    requires Legal(Ids(Step(c, b, op).book), more, cap)
    ensures Legal(Ids(b), OpEdits(c, b, op) + more, cap)
  {
    hide WellFormed, Ids, Cancel, Submit, Resize, SubmitEdits, CancelEdits, Legal, Locate;
    Regroup([], [], more);
    match op
    case DoSubmit(r) => SubmitLegal(c, b, r, more, cap);
    case DoCancel(id) => CancelLegal(c, b, id, more, cap);
    case DoReduce(id, amount) =>
      if Lookup(b, id).Some? {
        var (s, o) := Lookup(b, id).value;
        if amount >= o.qty { CancelLegal(c, b, id, more, cap); } else { ResizeIdSet(b, s, id, o.qty - amount); }
      }
    case DoModify(id, qty, price, ts) =>
      if Lookup(b, id).Some? {
        var (s, o) := Lookup(b, id).value;
        if price == o.price && 0 < qty <= o.qty {
          ResizeIdSet(b, s, id, qty);
        } else {
          var b', r := Cancel(b, id).0, Replacement(id, s, qty, price, ts);
          CancelKeeps(c, b, id);
          SubmitLegal(c, b', r, more, cap);
          Regroup(CancelEdits(b, id), SubmitEdits(c, b', r), more);
          CancelLegal(c, b, id, SubmitEdits(c, b', r) + more, cap);
        }
      }
  }

  /** Within capacity, the edits of a run only insert absent ids where there is room and erase present ones. */
  lemma {:induction false} RunLegal(c: Config, b: Book, ops: seq<Op>, cap: nat)
    requires WellFormed(c, b)
    requires forall i :: 0 <= i <= |ops| ==> Run(c, b, ops[..i]).book.Size() < cap
    ensures Legal(Ids(b), RunEdits(c, b, ops), cap)
    decreases |ops|
  {
    hide WellFormed, Ids, Step, OpEdits;
    if ops != [] {
      var b' := Step(c, b, ops[0]).book;
      StepKeeps(c, b, ops[0]);
      forall i | 0 <= i <= |ops[1..]| ensures Run(c, b', ops[1..][..i]).book.Size() < cap {
        RunSplit(c, b, ops[..i + 1]);
        assert ops[..i + 1][1..] == ops[1..][..i] && ops[..i + 1][0] == ops[0];
      }
      RunLegal(c, b', ops[1..], cap);
      assert ops[1..][..0] == [];
      OpLegal(c, b, ops[0], RunEdits(c, b', ops[1..]), cap);
    }
  }

  lemma {:induction false} RunSplit(c: Config, b: Book, ops: seq<Op>)
    requires ops != []
    ensures Run(c, b, ops).book == Run(c, Step(c, b, ops[0]).book, ops[1..]).book
    decreases |ops|
  {
    hide Step;
    var before, op := ops[..|ops| - 1], ops[|ops| - 1];
    if before == [] {
      assert ops[1..] == [];
    } else {
      RunSplit(c, b, before);
      assert ops[1..][..|ops[1..]| - 1] == before[1..] && ops[1..][|ops[1..]| - 1] == op;
    }
  }

  /** The id index of a new engine can take the edits of any run within capacity. */
  lemma FreshLegal(c: Config, ops: seq<Op>)
    requires c.Valid()
    requires forall i :: 0 <= i <= |ops| ==> Run(c, Book([], []), ops[..i]).book.Size() <= c.maxOrders
    ensures c.maxOrders < |FreshTable(c)| && FreshTable(c)[0].id == 0
    ensures Legal({}, RunEdits(c, Book([], []), ops), |FreshTable(c)|)
  {
    hide Run, RunEdits, Legal, RoundUpPow2;
    RoundUpIsLeast(2 * c.maxOrders);
    RunLegal(c, Book([], []), ops, |FreshTable(c)|);
    assert Ids(Book([], [])) == {};
  }

  /** The coded engine's index keeps every resting order in sight throughout a run from the empty book if and only
      if every erase of the run is safe. */
  lemma CodedRunExactly(c: Config, hash: Hash, ops: seq<Op>)
    requires c.Valid()
    requires forall i :: 0 <= i <= |ops| ==> Run(c, Book([], []), ops[..i]).book.Size() <= c.maxOrders
    ensures var edits := RunEdits(c, Book([], []), ops);
      SafeEdits(hash, FreshTable(c), edits) <==> AlwaysFindable(hash, FreshTable(c), edits)
  {
    hide Run, RunEdits, SafeEdits, AlwaysFindable, Legal, RoundUpPow2;
    var t := FreshTable(c);
    FreshLegal(c, ops);
    var none: map<OrderId, int>, nowhere: map<OrderId, nat> := map[], map[];
    assert none.Keys == {};
    assert t[0].id == 0;
    SafeExactly(hash, t, none, nowhere, RunEdits(c, Book([], []), ops));
  }

  /** A condition a caller can check beforehand, from the specification alone: a run in which no two resting ids
      ever share a home slot loses no order, with either erase. */
  lemma SpreadRunIsHarmless(c: Config, hash: Hash, backshift: Backshift, ops: seq<Op>)
    requires c.Valid()
    requires forall i :: 0 <= i <= |ops| ==> Run(c, Book([], []), ops[..i]).book.Size() <= c.maxOrders
    requires Spread(hash, |FreshTable(c)|, {}, RunEdits(c, Book([], []), ops))
    ensures Harmless(c, hash, backshift, RunEdits(c, Book([], []), ops))
  {
    hide Run, RunEdits, SafeEdits, Spread, Legal, RoundUpPow2;
    var t := FreshTable(c);
    FreshLegal(c, ops);
    var none: map<OrderId, int>, nowhere: map<OrderId, nat> := map[], map[];
    assert none.Keys == {};
    assert t[0].id == 0;
    SpreadIsSafe(hash, t, none, nowhere, RunEdits(c, Book([], []), ops));
  }
}
