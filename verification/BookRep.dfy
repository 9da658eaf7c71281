/** The engine's redundant representation as plain values, its invariant, the book it stands for, and
    what each elementary change of the representation does to that book. */
module BookRep {
  import opened LobTypes
  import opened OrderStore
  import opened NaiveBook
  import Words

  // ----- levels in priority order ------------------------------------------------

  /** The level with priority rank r on side s (and the rank of level r): asks count up, bids count down. */
  function Rank(s: Side, n: nat, r: int): int {
    if s.Sell? then r else n - 1 - r
  }

  /** The nodes of the levels ranked from a up to b, best level first, oldest node first. */
  function Chain(s: Side, q: seq<seq<nat>>, a: nat, b: nat): seq<nat>
    requires b <= |q|
    decreases b - a
  {
    if a >= b then [] else q[Rank(s, |q|, a)] + Chain(s, q, a + 1, b)
  }

  function Flatten(s: Side, q: seq<seq<nat>>): seq<nat> {
    Chain(s, q, 0, |q|)
  }

  lemma {:induction false} ChainSplit(s: Side, q: seq<seq<nat>>, a: nat, m: nat, b: nat)
    requires a <= m <= b <= |q|
    ensures Chain(s, q, a, b) == Chain(s, q, a, m) + Chain(s, q, m, b)
    decreases m - a
  {
    if a < m { ChainSplit(s, q, a + 1, m, b); }
  }

  lemma {:induction false} ChainFrame(s: Side, q: seq<seq<nat>>, q': seq<seq<nat>>, a: nat, b: nat)
    requires b <= |q| == |q'|
    requires forall r :: a <= r < b ==> q[Rank(s, |q|, r)] == q'[Rank(s, |q|, r)]
    ensures Chain(s, q, a, b) == Chain(s, q', a, b)
    decreases b - a
  {
    if a < b { ChainFrame(s, q, q', a + 1, b); }
  }

  lemma {:induction false} ChainEmpty(s: Side, q: seq<seq<nat>>, a: nat, b: nat)
    requires b <= |q|
    requires forall r :: a <= r < b ==> q[Rank(s, |q|, r)] == []
    ensures Chain(s, q, a, b) == []
    decreases b - a
  {
    if a < b { ChainEmpty(s, q, a + 1, b); }
  }

  /** What comes before and after level l in priority order. */
  function NodesBefore(s: Side, q: seq<seq<nat>>, l: nat): seq<nat>
    requires l < |q|
  {
    Chain(s, q, 0, Rank(s, |q|, l))
  }

  function NodesAfter(s: Side, q: seq<seq<nat>>, l: nat): seq<nat>
    requires l < |q|
  {
    Chain(s, q, Rank(s, |q|, l) + 1, |q|)
  }

  lemma FlattenSplit(s: Side, q: seq<seq<nat>>, l: nat)
    requires l < |q|
    ensures Flatten(s, q) == NodesBefore(s, q, l) + q[l] + NodesAfter(s, q, l)
  {
    var r := Rank(s, |q|, l);
    ChainSplit(s, q, 0, r, |q|);
    assert NodesBefore(s, q, l) + (q[l] + NodesAfter(s, q, l)) == NodesBefore(s, q, l) + q[l] + NodesAfter(s, q, l);
  }

  lemma AroundFrame(s: Side, q: seq<seq<nat>>, l: nat, nodes: seq<nat>)
    requires l < |q|
    ensures NodesBefore(s, q[l := nodes], l) == NodesBefore(s, q, l)
    ensures NodesAfter(s, q[l := nodes], l) == NodesAfter(s, q, l)
  {
    var r := Rank(s, |q|, l);
    ChainFrame(s, q, q[l := nodes], 0, r);
    ChainFrame(s, q, q[l := nodes], r + 1, |q|);
  }

  /** Replacing the nodes of level l replaces just its stretch of the flattened side. */
  lemma FlattenAt(s: Side, q: seq<seq<nat>>, l: nat, nodes: seq<nat>)
    requires l < |q|
    ensures Flatten(s, q) == NodesBefore(s, q, l) + q[l] + NodesAfter(s, q, l)
    ensures Flatten(s, q[l := nodes]) == NodesBefore(s, q, l) + nodes + NodesAfter(s, q, l)
  {
    FlattenSplit(s, q, l);
    FlattenSplit(s, q[l := nodes], l);
    AroundFrame(s, q, l, nodes);
  }

  lemma {:induction false} ChainMember(s: Side, q: seq<seq<nat>>, a: nat, b: nat, i: nat) returns (r: nat)
    requires b <= |q| && i < |Chain(s, q, a, b)|
    ensures a <= r < b && Chain(s, q, a, b)[i] in q[Rank(s, |q|, r)]
    decreases b - a
  {
    var k := |q[Rank(s, |q|, a)]|;
    if i < k { r := a; } else { r := ChainMember(s, q, a + 1, b, i - k); }
  }

  // ----- the invariant --------------------------------------------------------------

  datatype Rep = Rep(store: seq<Slot>, free: seq<nat>, bids: seq<Level>, asks: seq<Level>,
                     bidQ: seq<seq<nat>>, askQ: seq<seq<nat>>, index: map<OrderId, int>)
  {
    function Levels(s: Side): seq<Level> { if s.Buy? then bids else asks }

    function Queues(s: Side): seq<seq<nat>> { if s.Buy? then bidQ else askQ }
  }

  function View(store: seq<Slot>, n: nat): Resting {
    if n < |store| && store[n].Live? then Resting(store[n].order.id, store[n].order.price, store[n].order.qty)
    else Resting(0, 0, 0)
  }

  function Rests(store: seq<Slot>, nodes: seq<nat>): (os: seq<Resting>)
    ensures |os| == |nodes|
    ensures forall i :: 0 <= i < |nodes| ==> os[i] == View(store, nodes[i])
  {
    seq(|nodes|, i requires 0 <= i < |nodes| => View(store, nodes[i]))
  }

  /** List, count and 32-bit total of one level describe its nodes. */
  ghost predicate LevelOK(store: seq<Slot>, level: Level, nodes: seq<nat>) {
    && ListAt(store, level.head, level.tail, nodes)
    && level.count == |nodes|
    && level.total == Wrap32(Total(Rests(store, nodes)))
  }

  ghost predicate LevelsOK(store: seq<Slot>, levels: seq<Level>, q: seq<seq<nat>>) {
    |levels| == |q| && forall l :: 0 <= l < |q| ==> LevelOK(store, levels[l], q[l])
  }

  /** Every queued node is a live order that knows its side and level. */
  ghost predicate Placed(store: seq<Slot>, s: Side, q: seq<seq<nat>>) {
    forall l, n {:trigger n in q[l]} :: 0 <= l < |q| && n in q[l] ==>
      n < |store| && store[n].Live? && store[n].order.side == s && store[n].order.levelIdx == l
  }

  /** Every live order is queued where it says it is. */
  ghost predicate Covered(r: Rep) {
    forall n :: 0 <= n < |r.store| && r.store[n].Live? ==>
      var o := r.store[n].order;
      o.levelIdx < |r.Queues(o.side)| && n in r.Queues(o.side)[o.levelIdx]
  }

  ghost predicate OrderOK(c: Config, o: Order) {
    && o.id != INVALID_ORDER_ID && o.qty > 0
    && c.InRange(o.price) && o.levelIdx == o.price - c.basePrice
  }

  ghost predicate OrdersOK(c: Config, store: seq<Slot>) {
    forall n :: 0 <= n < |store| && store[n].Live? ==> OrderOK(c, store[n].order)
  }

  ghost predicate FreeOK(store: seq<Slot>, free: seq<nat>) {
    forall n :: 0 <= n < |store| ==> (store[n].Free? <==> n in free)
  }

  /** The id index holds exactly the live orders. */
  ghost predicate Indexed(store: seq<Slot>, index: map<OrderId, int>) {
    && (forall n :: 0 <= n < |store| && store[n].Live? ==>
          store[n].order.id in index && index[store[n].order.id] == n)
    && (forall id :: id in index ==>
          0 <= index[id] < |store| && store[index[id]].Live? && store[index[id]].order.id == id)
  }

  ghost predicate Core(c: Config, r: Rep) {
    && |r.bidQ| == |r.askQ| == c.numLevels
    && LevelsOK(r.store, r.bids, r.bidQ)
    && LevelsOK(r.store, r.asks, r.askQ)
    && Placed(r.store, Buy, r.bidQ)
    && Placed(r.store, Sell, r.askQ)
    && Accounted(c, r)
  }

  ghost predicate Accounted(c: Config, r: Rep) {
    && Covered(r)
    && OrdersOK(c, r.store)
    && FreeOK(r.store, r.free)
    && Indexed(r.store, r.index)
  }

  /** Every slot is on the free list or on exactly one level list. */
  ghost predicate Counted(r: Rep) {
    |Flatten(Buy, r.bidQ)| + |Flatten(Sell, r.askQ)| + |r.free| == |r.store|
  }

  function Abs(r: Rep): Book {
    Book(Rests(r.store, Flatten(Buy, r.bidQ)), Rests(r.store, Flatten(Sell, r.askQ)))
  }

  /** A side's bitmap and cached best level describe its queues. */
  ghost predicate Edge(s: Side, q: seq<seq<nat>>, members: set<nat>, best: nat) {
    && (forall l: nat :: l in members <==> l < |q| && q[l] != [])
    && (best == NO_BEST ==> members == {})
    && (best != NO_BEST ==> best in members && forall l :: l in members ==> Rank(s, |q|, best) <= Rank(s, |q|, l))
  }

  const NO_BEST: nat := Words.SIZE_MAX

  // ----- what the invariant says about one side ----------------------------------------

  lemma IndexUnique(os: seq<Resting>, i: nat)
    requires DistinctIds(os) && i < |os|
    ensures Index(os, os[i].id) == i
  {
  }

  lemma {:induction false} ChainDistinct(store: seq<Slot>, s: Side, q: seq<seq<nat>>, a: nat, b: nat)
    requires b <= |q| && Placed(store, s, q)
    requires forall l :: 0 <= l < |q| ==> Distinct(q[l])
    ensures Distinct(Chain(s, q, a, b))
    decreases b - a
  {
    if a < b {
      ChainDistinct(store, s, q, a + 1, b);
      var row, rest := q[Rank(s, |q|, a)], Chain(s, q, a + 1, b);
      forall i, j | 0 <= i < |row| && 0 <= j < |rest| ensures row[i] != rest[j] {
        var r := ChainMember(s, q, a + 1, b, j);
        assert row[i] in q[Rank(s, |q|, a)];
      }
    }
  }

  lemma FlattenDistinct(r: Rep, s: Side)
    requires LevelsOK(r.store, r.Levels(s), r.Queues(s)) && Placed(r.store, s, r.Queues(s))
    ensures Distinct(Flatten(s, r.Queues(s)))
  {
    var q := r.Queues(s);
    forall l | 0 <= l < |q| ensures Distinct(q[l]) { assert LevelOK(r.store, r.Levels(s)[l], q[l]); }
    ChainDistinct(r.store, s, q, 0, |q|);
  }

  /** A flattened node is a live order of that side whose level's rank is within the stretch. */
  lemma ChainPlaced(store: seq<Slot>, s: Side, q: seq<seq<nat>>, a: nat, b: nat, i: nat)
    requires Placed(store, s, q) && b <= |q| && i < |Chain(s, q, a, b)|
    ensures var n := Chain(s, q, a, b)[i];
      && n < |store| && store[n].Live? && store[n].order.side == s
      && a <= Rank(s, |q|, store[n].order.levelIdx) < b
  {
    var k := ChainMember(s, q, a, b, i);
  }

  lemma SideUnique(r: Rep, s: Side)
    requires Placed(r.store, s, r.Queues(s)) && Indexed(r.store, r.index) && Distinct(Flatten(s, r.Queues(s)))
    ensures DistinctIds(Abs(r).On(s))
  {
    var f, os := Flatten(s, r.Queues(s)), Abs(r).On(s);
    forall i, j | 0 <= i < j < |os| ensures os[i].id != os[j].id {
      ChainPlaced(r.store, s, r.Queues(s), 0, |r.Queues(s)|, i);
      ChainPlaced(r.store, s, r.Queues(s), 0, |r.Queues(s)|, j);
    }
  }

  lemma SideFacts(c: Config, r: Rep, s: Side)
    requires Core(c, r)
    ensures Distinct(Flatten(s, r.Queues(s))) && DistinctIds(Abs(r).On(s))
  {
    FlattenDistinct(r, s);
    SideUnique(r, s);
  }

  /** Where the node at position k of level l sits in its flattened side. */
  lemma FlatPosition(s: Side, q: seq<seq<nat>>, l: nat, k: nat)
    requires l < |q| && k < |q[l]|
    ensures |NodesBefore(s, q, l)| + k < |Flatten(s, q)|
    ensures Flatten(s, q)[|NodesBefore(s, q, l)| + k] == q[l][k]
  {
    FlattenAt(s, q, l, q[l]);
  }

  lemma Position(r: Rep, s: Side, l: nat, k: nat) returns (i: nat)
    requires DistinctIds(Abs(r).On(s)) && l < |r.Queues(s)| && k < |r.Queues(s)[l]|
    ensures i == |NodesBefore(s, r.Queues(s), l)| + k < |Abs(r).On(s)|
    ensures Flatten(s, r.Queues(s))[i] == r.Queues(s)[l][k]
    ensures Abs(r).On(s)[i] == View(r.store, r.Queues(s)[l][k])
    ensures Index(Abs(r).On(s), Abs(r).On(s)[i].id) == i
  {
    FlatPosition(s, r.Queues(s), l, k);
    i := |NodesBefore(s, r.Queues(s), l)| + k;
    IndexUnique(Abs(r).On(s), i);
  }

  /** The index answers lookups in the abstract book. */
  lemma Located(c: Config, r: Rep, id: OrderId)
    requires Core(c, r)
    ensures id in r.index ==>
      var n := r.index[id]; Lookup(Abs(r), id) == Some((r.store[n].order.side, View(r.store, n)))
    ensures id !in r.index ==> Lookup(Abs(r), id) == None && Locate(Abs(r), id) == None
  {
    SideFacts(c, r, Buy);
    SideFacts(c, r, Sell);
    FoundOn(r, Buy, id);
    FoundOn(r, Sell, id);
    if id in r.index { QueuedOn(r, id); }
  }

  /** What the invariant says about an indexed order: k is its position in its level's list. */
  lemma IndexFacts(c: Config, r: Rep, id: OrderId) returns (k: nat)
    requires Core(c, r) && id in r.index
    ensures |r.bidQ| == |r.askQ| == |r.bids| == |r.asks| == c.numLevels
    ensures 0 <= r.index[id] < |r.store| && r.store[r.index[id]].Live? && r.index[id] !in r.free
    ensures var o := r.store[r.index[id]].order;
      && OrderOK(c, o) && o.id == id && o.levelIdx < c.numLevels
      && k < |r.Queues(o.side)[o.levelIdx]| && r.Queues(o.side)[o.levelIdx][k] == r.index[id]
      && LevelOK(r.store, r.Levels(o.side)[o.levelIdx], r.Queues(o.side)[o.levelIdx])
  {
    var o := r.store[r.index[id]].order;
    k :| 0 <= k < |r.Queues(o.side)[o.levelIdx]| && r.Queues(o.side)[o.levelIdx][k] == r.index[id];
  }

  /** Whatever a search of one side finds, the index knows. */
  lemma FoundOn(r: Rep, s: Side, id: OrderId)
    requires Placed(r.store, s, r.Queues(s)) && Indexed(r.store, r.index)
    ensures var os := Abs(r).On(s);
      Index(os, id) < |os| ==>
        && id in r.index && r.store[r.index[id]].order.side == s
        && os[Index(os, id)] == View(r.store, r.index[id])
  {
    var i := Index(Abs(r).On(s), id);
    if i < |Abs(r).On(s)| { ChainPlaced(r.store, s, r.Queues(s), 0, |r.Queues(s)|, i); }
  }

  lemma QueuedOn(r: Rep, id: OrderId)
    requires Covered(r) && Indexed(r.store, r.index) && id in r.index
    requires var s := r.store[r.index[id]].order.side; DistinctIds(Abs(r).On(s))
    ensures var os := Abs(r).On(r.store[r.index[id]].order.side); Index(os, id) < |os|
  {
    var o := r.store[r.index[id]].order;
    var k :| 0 <= k < |r.Queues(o.side)[o.levelIdx]| && r.Queues(o.side)[o.levelIdx][k] == r.index[id];
    var i := Position(r, o.side, o.levelIdx, k);
  }
}
