/** The three elementary changes of the representation -- an order shrinks in place, leaves, or joins the
    back of its level -- keep the invariant and are Resize, Remove and Insert on the abstract book. */
module BookChanges {
  import opened LobTypes
  import opened OrderStore
  import opened NaiveBook
  import opened BookRep

  // ----- totals ------------------------------------------------------------------

  lemma TotalSplit(os: seq<Resting>, k: nat)
    requires k < |os|
    ensures Total(os) == Total(os[..k]) + os[k].qty + Total(os[k + 1..])
  {
    TotalAppend(os[..k], os[k..]);
    assert os == os[..k] + os[k..];
    assert os[k..][0] == os[k] && os[k..][1..] == os[k + 1..];
  }

  lemma TotalUpdate(os: seq<Resting>, k: nat, o: Resting)
    requires k < |os|
    ensures Total(os[k := o]) == Total(os) - os[k].qty + o.qty
    ensures Total(os[..k] + os[k + 1..]) == Total(os) - os[k].qty
  {
    TotalSplit(os, k);
    TotalSplit(os[k := o], k);
    assert os[k := o][..k] == os[..k] && os[k := o][k + 1..] == os[k + 1..];
    TotalAppend(os[..k], os[k + 1..]);
  }

  // ----- frames -------------------------------------------------------------------

  /** Slots other than n keep everything but links, and links change only inside `touched`. */
  ghost predicate Apart(was: seq<Slot>, store: seq<Slot>, n: nat, touched: seq<nat>) {
    && |store| == |was| && n < |was|
    && forall m :: 0 <= m < |was| && m != n ==> SameButLinks(was[m], store[m]) && (m !in touched ==> store[m] == was[m])
  }

  lemma LevelFrame(was: seq<Slot>, store: seq<Slot>, level: Level, nodes: seq<nat>)
    requires LevelOK(was, level, nodes) && |store| == |was|
    requires forall m :: m in nodes ==> m < |was| && store[m] == was[m]
    ensures LevelOK(store, level, nodes)
  {
    forall i | 0 <= i < |nodes| ensures Linked(store, nodes, i) {
      assert Linked(was, nodes, i);
      assert nodes[i] in nodes;
    }
    assert Rests(store, nodes) == Rests(was, nodes);
  }

  /** A level list none of whose nodes is n or touched is as it was. */
  lemma OtherSideFrame(was: seq<Slot>, store: seq<Slot>, levels: seq<Level>, s: Side, q: seq<seq<nat>>, n: nat,
      touched: seq<nat>)
    requires LevelsOK(was, levels, q) && Placed(was, s, q) && Apart(was, store, n, touched)
    requires was[n].Live? ==> was[n].order.side != s
    requires forall m :: m in touched ==> m < |was| && was[m].Live? && was[m].order.side != s
    ensures LevelsOK(store, levels, q)
    ensures Placed(store, s, q)
    ensures Rests(store, Flatten(s, q)) == Rests(was, Flatten(s, q))
  {
    forall l | 0 <= l < |q| ensures LevelOK(store, levels[l], q[l]) {
      LevelFrame(was, store, levels[l], q[l]);
    }
    var f := Flatten(s, q);
    forall i | 0 <= i < |f| ensures View(store, f[i]) == View(was, f[i]) {
      var r := ChainMember(s, q, 0, |q|, i);
    }
  }

  /** On the changed side every level but l is as it was. */
  lemma SameSideFrame(was: seq<Slot>, store: seq<Slot>, levels: seq<Level>, s: Side, q: seq<seq<nat>>, l: nat,
      n: nat, level: Level, nodes: seq<nat>)
    requires LevelsOK(was, levels, q) && Placed(was, s, q)
    requires l < |q| && Apart(was, store, n, q[l])
    requires n in q[l] || was[n].Free?
    requires LevelOK(store, level, nodes)
    ensures LevelsOK(store, levels[l := level], q[l := nodes])
  {
    forall k | 0 <= k < |q| && k != l ensures LevelOK(store, levels[k], q[k]) {
      LevelFrame(was, store, levels[k], q[k]);
    }
  }

  // ----- an order shrinks in place -------------------------------------------------

  /** The level with its total reduced by amount, on 32 bits. */
  function Lowered(level: Level, amount: int): Level {
    level.(total := Wrap32(level.total - amount))
  }

  /** The representation after the quantity of node n was lowered to qty and its level's total with it. */
  function Shrunk(r: Rep, n: nat, qty: Quantity): Rep
    requires n < |r.store| && r.store[n].Live?
    requires r.store[n].order.levelIdx < |r.Levels(r.store[n].order.side)|
  {
    var o := r.store[n].order;
    var store := r.store[n := Live(o.(qty := qty))];
    var levels := r.Levels(o.side)[o.levelIdx := Lowered(r.Levels(o.side)[o.levelIdx], o.qty - qty)];
    if o.side.Buy? then r.(store := store, bids := levels) else r.(store := store, asks := levels)
  }

  lemma ShrinkLevel(store: seq<Slot>, level: Level, nodes: seq<nat>, k: nat, qty: Quantity)
    requires LevelOK(store, level, nodes) && k < |nodes|
    requires nodes[k] < |store| && store[nodes[k]].Live? && qty <= store[nodes[k]].order.qty
    ensures var o := store[nodes[k]].order;
      LevelOK(store[nodes[k] := Live(o.(qty := qty))], Lowered(level, o.qty - qty), nodes)
  {
    var n, o := nodes[k], store[nodes[k]].order;
    var store' := store[n := Live(o.(qty := qty))];
    forall i | 0 <= i < |nodes| ensures Linked(store', nodes, i) { assert Linked(store, nodes, i); }
    hide Linked, Distinct;
    ShrinkTotal(store, nodes, k, qty);
    assert ListAt(store', level.head, level.tail, nodes);
    WrapSum(Total(Rests(store, nodes)), qty - o.qty);
  }

  lemma ShrinkTotal(store: seq<Slot>, nodes: seq<nat>, k: nat, qty: Quantity)
    requires Distinct(nodes) && k < |nodes| && nodes[k] < |store| && store[nodes[k]].Live?
    ensures var o := store[nodes[k]].order;
      Total(Rests(store[nodes[k] := Live(o.(qty := qty))], nodes)) == Total(Rests(store, nodes)) - o.qty + qty
  {
    var os := Rests(store, nodes);
    ShrinkView(store, nodes, k, qty);
    TotalUpdate(os, k, os[k].(qty := qty));
  }

  lemma ShrinkView(store: seq<Slot>, f: seq<nat>, i: nat, qty: Quantity)
    requires Distinct(f) && i < |f| && f[i] < |store| && store[f[i]].Live?
    ensures Rests(store[f[i] := Live(store[f[i]].order.(qty := qty))], f)
         == Rests(store, f)[i := View(store, f[i]).(qty := qty)]
  {
  }

  lemma ShrinkSide(store: seq<Slot>, s: Side, levels: seq<Level>, q: seq<seq<nat>>, l: nat, k: nat, n: nat,
      qty: Quantity)
    requires LevelsOK(store, levels, q) && Placed(store, s, q) && l < |q| && k < |q[l]| && q[l][k] == n
    requires n < |store| && store[n].Live? && qty <= store[n].order.qty
    ensures var o := store[n].order;
      var store' := store[n := Live(o.(qty := qty))];
      && LevelsOK(store', levels[l := Lowered(levels[l], o.qty - qty)], q)
      && Placed(store', s, q)
  {
    var store' := store[n := Live(store[n].order.(qty := qty))];
    var level := Lowered(levels[l], store[n].order.qty - qty);
    ShrinkLevel(store, levels[l], q[l], k, qty);
    SameSideFrame(store, store', levels, s, q, l, n, level, q[l]);
    assert q[l := q[l]] == q;
  }

  /** The position of a live order in its level's list. */
  lemma WhereIs(c: Config, r: Rep, n: nat) returns (k: nat)
    requires Core(c, r) && n < |r.store| && r.store[n].Live?
    ensures var o := r.store[n].order;
      o.levelIdx < c.numLevels && k < |r.Queues(o.side)[o.levelIdx]| && r.Queues(o.side)[o.levelIdx][k] == n
  {
    var o := r.store[n].order;
    k :| 0 <= k < |r.Queues(o.side)[o.levelIdx]| && r.Queues(o.side)[o.levelIdx][k] == n;
  }

  lemma ShrinkOther(store: seq<Slot>, n: nat, qty: Quantity, levels: seq<Level>, s: Side, q: seq<seq<nat>>)
    requires LevelsOK(store, levels, q) && Placed(store, s, q)
    requires n < |store| && store[n].Live? && store[n].order.side != s
    ensures var store' := store[n := Live(store[n].order.(qty := qty))];
      && LevelsOK(store', levels, q) && Placed(store', s, q)
      && Rests(store', Flatten(s, q)) == Rests(store, Flatten(s, q))
  {
    OtherSideFrame(store, store[n := Live(store[n].order.(qty := qty))], levels, s, q, n, []);
  }

  lemma ShrinkSame(r: Rep, n: nat, qty: Quantity, k: nat)
    requires n < |r.store| && r.store[n].Live? && qty <= r.store[n].order.qty
    requires var o := r.store[n].order;
      && LevelsOK(r.store, r.Levels(o.side), r.Queues(o.side)) && Placed(r.store, o.side, r.Queues(o.side))
      && o.levelIdx < |r.Queues(o.side)| && k < |r.Queues(o.side)[o.levelIdx]| && r.Queues(o.side)[o.levelIdx][k] == n
    ensures var s, r' := r.store[n].order.side, Shrunk(r, n, qty);
      LevelsOK(r'.store, r'.Levels(s), r'.Queues(s)) && Placed(r'.store, s, r'.Queues(s))
  {
    hide LevelOK, Placed;
    var o := r.store[n].order;
    var s, l, r' := o.side, o.levelIdx, Shrunk(r, n, qty);
    ShrinkSide(r.store, s, r.Levels(s), r.Queues(s), l, k, n, qty);
    assert r'.Levels(s) == r.Levels(s)[l := Lowered(r.Levels(s)[l], o.qty - qty)];
  }

  lemma ShrinkCore(c: Config, r: Rep, n: nat, qty: Quantity)
    requires Core(c, r) && n < |r.store| && r.store[n].Live?
    requires 0 < qty <= r.store[n].order.qty
    ensures r.store[n].order.levelIdx < c.numLevels
    ensures Core(c, Shrunk(r, n, qty))
  {
    var s, r' := r.store[n].order.side.Opposite(), Shrunk(r, n, qty);
    var k := WhereIs(c, r, n);
    ShrinkSame(r, n, qty, k);
    ShrinkOther(r.store, n, qty, r.Levels(s), s, r.Queues(s));
    assert LevelsOK(r'.store, r'.Levels(s), r'.Queues(s));
    ShrinkAccounted(c, r, n, qty);
  }

  lemma ShrinkKeeps(c: Config, r: Rep, n: nat, qty: Quantity)
    requires Core(c, r) && n < |r.store| && r.store[n].Live?
    requires 0 < qty <= r.store[n].order.qty
    ensures r.store[n].order.levelIdx < c.numLevels
    ensures var o, r' := r.store[n].order, Shrunk(r, n, qty);
      && Abs(r') == Abs(r).With(o.side, Resize(Abs(r).On(o.side), o.id, qty))
  {
    var k := WhereIs(c, r, n);
    var s, l := r.store[n].order.side, r.store[n].order.levelIdx;
    ShrinkOther(r.store, n, qty, r.Levels(s.Opposite()), s.Opposite(), r.Queues(s.Opposite()));
    ShrinkAbs(c, r, n, qty, s, l, k);
  }

  lemma ShrinkAccounted(c: Config, r: Rep, n: nat, qty: Quantity)
    requires Accounted(c, r) && n < |r.store| && r.store[n].Live? && qty > 0
    requires r.store[n].order.levelIdx < |r.Levels(r.store[n].order.side)|
    ensures Accounted(c, Shrunk(r, n, qty))
  {
    ShrinkStore(c, r.store, r.free, n, qty);
    ShrinkIndexed(r.store, r.index, n, qty);
    hide OrdersOK, FreeOK, Indexed;
  }

  lemma ShrinkStore(c: Config, store: seq<Slot>, free: seq<nat>, n: nat, qty: Quantity)
    requires OrdersOK(c, store) && FreeOK(store, free) && n < |store| && store[n].Live? && qty > 0
    ensures var store' := store[n := Live(store[n].order.(qty := qty))]; OrdersOK(c, store') && FreeOK(store', free)
  {
  }

  lemma ShrinkIndexed(store: seq<Slot>, index: map<OrderId, int>, n: nat, qty: Quantity)
    requires Indexed(store, index) && n < |store| && store[n].Live?
    ensures Indexed(store[n := Live(store[n].order.(qty := qty))], index)
  {
  }

  lemma ShrinkAbs(c: Config, r: Rep, n: nat, qty: Quantity, s: Side, l: nat, k: nat)
    requires Core(c, r) && l < c.numLevels && k < |r.Queues(s)[l]| && r.Queues(s)[l][k] == n
    requires n < |r.store| && r.store[n].Live?
    ensures var o := r.store[n].order;
      Rests(r.store[n := Live(o.(qty := qty))], Flatten(s, r.Queues(s))) == Resize(Abs(r).On(s), o.id, qty)
  {
    SideFacts(c, r, s);
    var i := Position(r, s, l, k);
    ShrinkView(r.store, Flatten(s, r.Queues(s)), i, qty);
  }

  // ----- an order leaves -----------------------------------------------------------

  /** From r to r' the k-th order of level l on side s left its list, the index and the store. */
  ghost predicate Dropped(r: Rep, r': Rep, s: Side, l: nat, k: nat)
    requires l < |r.Queues(s)| == |r.Levels(s)| && k < |r.Queues(s)[l]|
    requires var n := r.Queues(s)[l][k]; n < |r.store| && r.store[n].Live?
  {
    var q, levels := r.Queues(s), r.Levels(s);
    var n := q[l][k];
    && Apart(r.store, r'.store, n, q[l]) && r'.store[n].Free?
    && r'.free == [n] + r.free
    && r'.index == r.index - {r.store[n].order.id}
    && r'.Queues(s) == q[l := Without(q[l], k)] && r'.Queues(s.Opposite()) == r.Queues(s.Opposite())
    && |r'.Levels(s)| == |levels| && r'.Levels(s.Opposite()) == r.Levels(s.Opposite())
    && r'.Levels(s) == levels[l := r'.Levels(s)[l]]
    && LevelLost(r'.store, levels[l], r'.Levels(s)[l], Without(q[l], k), r.store[n].order.qty)
  }

  ghost predicate LevelLost(store: seq<Slot>, was: Level, level: Level, nodes: seq<nat>, qty: Quantity) {
    && ListAt(store, level.head, level.tail, nodes)
    && level.count == was.count - 1
    && level.total == Lowered(was, qty).total
  }

  lemma DropLevel(was: seq<Slot>, store: seq<Slot>, level: Level, level': Level, nodes: seq<nat>, k: nat)
    requires LevelOK(was, level, nodes) && k < |nodes| && nodes[k] < |was| && was[nodes[k]].Live?
    requires Apart(was, store, nodes[k], nodes)
    requires LevelLost(store, level, level', Without(nodes, k), was[nodes[k]].order.qty)
    ensures LevelOK(store, level', Without(nodes, k))
  {
    var os, rest := Rests(was, nodes), Without(nodes, k);
    DropViews(was, store, nodes, k);
    TotalUpdate(os, k, os[k]);
    WrapSum(Total(os), 0 - os[k].qty);
    hide ListAt, Apart, Without;
  }

  lemma DropViews(was: seq<Slot>, store: seq<Slot>, nodes: seq<nat>, k: nat)
    requires k < |nodes| && Distinct(nodes)
    requires |store| == |was| && forall m :: 0 <= m < |was| && m != nodes[k] ==> SameButLinks(was[m], store[m])
    ensures Rests(store, Without(nodes, k)) == Rests(was, nodes)[..k] + Rests(was, nodes)[k + 1..]
  {
    var os, rest := Rests(was, nodes), Without(nodes, k);
    forall i | 0 <= i < |rest| ensures View(store, rest[i]) == (os[..k] + os[k + 1..])[i] {
      assert rest[i] == nodes[if i < k then i else i + 1];
    }
  }

  lemma DropSame(r: Rep, r': Rep, s: Side, l: nat, k: nat)
    requires LevelsOK(r.store, r.Levels(s), r.Queues(s)) && Placed(r.store, s, r.Queues(s))
    requires l < |r.Queues(s)| && k < |r.Queues(s)[l]|
    requires var n := r.Queues(s)[l][k]; n < |r.store| && r.store[n].Live?
    requires Dropped(r, r', s, l, k)
    ensures LevelsOK(r'.store, r'.Levels(s), r'.Queues(s)) && Placed(r'.store, s, r'.Queues(s))
  {
    var q, level := r.Queues(s), r'.Levels(s)[l];
    assert LevelOK(r.store, r.Levels(s)[l], q[l]);
    DropLevel(r.store, r'.store, r.Levels(s)[l], level, q[l], k);
    SameSideFrame(r.store, r'.store, r.Levels(s), s, q, l, q[l][k], level, Without(q[l], k));
    WithoutMembers(q[l], k);
    DropPlaced(r.store, r'.store, s, q, l, k);
  }

  lemma DropPlaced(was: seq<Slot>, store: seq<Slot>, s: Side, q: seq<seq<nat>>, l: nat, k: nat)
    requires Placed(was, s, q) && l < |q| && k < |q[l]| && Distinct(q[l])
    requires Apart(was, store, q[l][k], q[l])
    ensures Placed(store, s, q[l := Without(q[l], k)])
  {
    var q' := q[l := Without(q[l], k)];
    WithoutMembers(q[l], k);
    assert q[l][k] in q[l];
    forall j, n | 0 <= j < |q'| && n in q'[j]
      ensures n < |store| && store[n].Live? && store[n].order.side == s && store[n].order.levelIdx == j
    {
      assert n in q[j] && n != q[l][k];
    }
  }

  lemma DropOther(r: Rep, r': Rep, s: Side, l: nat, k: nat)
    requires var t := s.Opposite(); LevelsOK(r.store, r.Levels(t), r.Queues(t)) && Placed(r.store, t, r.Queues(t))
    requires Placed(r.store, s, r.Queues(s)) && l < |r.Queues(s)| == |r.Levels(s)| && k < |r.Queues(s)[l]|
    requires var n := r.Queues(s)[l][k]; n < |r.store| && r.store[n].Live?
    requires Dropped(r, r', s, l, k)
    ensures var t := s.Opposite();
      && LevelsOK(r'.store, r'.Levels(t), r'.Queues(t)) && Placed(r'.store, t, r'.Queues(t))
      && Abs(r').On(t) == Abs(r).On(t)
  {
    var t, nodes := s.Opposite(), r.Queues(s)[l];
    assert nodes[k] in nodes;
    OtherSideFrame(r.store, r'.store, r.Levels(t), t, r.Queues(t), nodes[k], nodes);
  }

  lemma DropAccounted(c: Config, r: Rep, r': Rep, s: Side, l: nat, k: nat)
    requires Accounted(c, r)
    requires l < |r.Queues(s)| == |r.Levels(s)| && k < |r.Queues(s)[l]| && Distinct(r.Queues(s)[l])
    requires var n := r.Queues(s)[l][k]; n < |r.store| && r.store[n].Live?
    requires Dropped(r, r', s, l, k)
    ensures Accounted(c, r')
  {
    DropCovered(r, r', s, l, k);
    DropOrders(c, r.store, r'.store, r.free, r.Queues(s)[l][k]);
    DropIndexed(r.store, r'.store, r.index, r.Queues(s)[l][k]);
  }

  lemma DropCovered(r: Rep, r': Rep, s: Side, l: nat, k: nat)
    requires Covered(r)
    requires l < |r.Queues(s)| && k < |r.Queues(s)[l]| && Distinct(r.Queues(s)[l])
    requires Apart(r.store, r'.store, r.Queues(s)[l][k], r.Queues(s)[l]) && r'.store[r.Queues(s)[l][k]].Free?
    requires r'.Queues(s) == r.Queues(s)[l := Without(r.Queues(s)[l], k)]
    requires r'.Queues(s.Opposite()) == r.Queues(s.Opposite())
    ensures Covered(r')
  {
    WithoutMembers(r.Queues(s)[l], k);
    forall m | 0 <= m < |r'.store| && r'.store[m].Live?
      ensures var o := r'.store[m].order; o.levelIdx < |r'.Queues(o.side)| && m in r'.Queues(o.side)[o.levelIdx]
    {
      assert SameButLinks(r.store[m], r'.store[m]);
      assert r.store[m].order.side == s || r.store[m].order.side == s.Opposite();
    }
  }

  lemma DropOrders(c: Config, was: seq<Slot>, store: seq<Slot>, free: seq<nat>, n: nat)
    requires OrdersOK(c, was) && FreeOK(was, free)
    requires n < |was| == |store| && store[n].Free?
    requires forall m :: 0 <= m < |was| && m != n ==> SameButLinks(was[m], store[m])
    ensures OrdersOK(c, store) && FreeOK(store, [n] + free)
  {
  }

  lemma DropIndexed(was: seq<Slot>, store: seq<Slot>, index: map<OrderId, int>, n: nat)
    requires Indexed(was, index) && n < |was| == |store| && was[n].Live? && store[n].Free?
    requires forall m :: 0 <= m < |was| && m != n ==> SameButLinks(was[m], store[m])
    ensures Indexed(store, index - {was[n].order.id})
  {
  }

  lemma DropAbs(r: Rep, r': Rep, s: Side, l: nat, k: nat)
    requires l < |r.Queues(s)| && k < |r.Queues(s)[l]|
    requires DistinctIds(Abs(r).On(s)) && Distinct(Flatten(s, r.Queues(s)))
    requires Apart(r.store, r'.store, r.Queues(s)[l][k], r.Queues(s)[l])
    requires r'.Queues(s) == r.Queues(s)[l := Without(r.Queues(s)[l], k)]
    ensures Abs(r').On(s) == Remove(Abs(r).On(s), View(r.store, r.Queues(s)[l][k]).id)
    ensures |Flatten(s, r'.Queues(s))| == |Flatten(s, r.Queues(s))| - 1
  {
    var q, os := r.Queues(s), Abs(r).On(s);
    var i := Position(r, s, l, k);
    DropFlat(r.store, r'.store, s, q, l, k, i);
    RemoveAt(os, View(r.store, q[l][k]).id, i);
  }

  lemma RemoveAt(os: seq<Resting>, id: OrderId, i: nat)
    requires i < |os| && Index(os, id) == i
    ensures Remove(os, id) == os[..i] + os[i + 1..]
  {
  }

  lemma DropFlat(was: seq<Slot>, store: seq<Slot>, s: Side, q: seq<seq<nat>>, l: nat, k: nat, i: nat)
    requires l < |q| && k < |q[l]| && i == |NodesBefore(s, q, l)| + k < |Flatten(s, q)| && Flatten(s, q)[i] == q[l][k]
    requires Distinct(Flatten(s, q)) && Apart(was, store, q[l][k], q[l])
    ensures |Flatten(s, q[l := Without(q[l], k)])| == |Flatten(s, q)| - 1
    ensures Rests(store, Flatten(s, q[l := Without(q[l], k)]))
         == Rests(was, Flatten(s, q))[..i] + Rests(was, Flatten(s, q))[i + 1..]
  {
    FlattenWithout(s, q, l, k, i);
    DropViews(was, store, Flatten(s, q), i);
  }

  lemma FlattenWithout(s: Side, q: seq<seq<nat>>, l: nat, k: nat, i: nat)
    requires l < |q| && k < |q[l]| && i == |NodesBefore(s, q, l)| + k
    ensures i < |Flatten(s, q)| && Flatten(s, q[l := Without(q[l], k)]) == Without(Flatten(s, q), i)
  {
    FlattenAt(s, q, l, Without(q[l], k));
    var a, m, b := NodesBefore(s, q, l), q[l], NodesAfter(s, q, l);
    assert a + Without(m, k) + b == Without(a + m + b, i);
  }

  lemma DropKeeps(c: Config, r: Rep, r': Rep, s: Side, l: nat, k: nat)
    requires Core(c, r) && Counted(r) && l < c.numLevels && k < |r.Queues(s)[l]|
    requires var n := r.Queues(s)[l][k]; n < |r.store| && r.store[n].Live?
    requires Dropped(r, r', s, l, k)
    ensures Core(c, r') && Counted(r')
    ensures Abs(r') == Abs(r).With(s, Remove(Abs(r).On(s), r.store[r.Queues(s)[l][k]].order.id))
  {
    assert LevelOK(r.store, r.Levels(s)[l], r.Queues(s)[l]);
    DropSame(r, r', s, l, k);
    DropOther(r, r', s, l, k);
    DropAccounted(c, r, r', s, l, k);
    SideFacts(c, r, s);
    DropAbs(r, r', s, l, k);
  }

  // ----- an order joins the back of its level -----------------------------------------

  /** From r to r' the order o took the first free slot and joined level l on side s. */
  ghost predicate Added(r: Rep, r': Rep, s: Side, l: nat, o: Order)
    requires l < |r.Queues(s)| == |r.Levels(s)|
    requires r.free != [] && r.free[0] < |r.store|
  {
    var q, levels, n := r.Queues(s), r.Levels(s), r.free[0];
    && Apart(r.store, r'.store, n, q[l]) && SameButLinks(Live(o), r'.store[n])
    && r'.free == r.free[1..]
    && r'.index == r.index[o.id := n]
    && r'.Queues(s) == q[l := q[l] + [n]] && r'.Queues(s.Opposite()) == r.Queues(s.Opposite())
    && |r'.Levels(s)| == |levels| && r'.Levels(s.Opposite()) == r.Levels(s.Opposite())
    && r'.Levels(s) == levels[l := r'.Levels(s)[l]]
    && LevelGained(r'.store, levels[l], r'.Levels(s)[l], q[l] + [n], o.qty)
  }

  /** The level with its total raised by amount, on 32 bits. */
  function Raised(level: Level, amount: int): Level {
    level.(total := Wrap32(level.total + amount))
  }

  ghost predicate LevelGained(store: seq<Slot>, was: Level, level: Level, nodes: seq<nat>, qty: Quantity) {
    && ListAt(store, level.head, level.tail, nodes)
    && level.count == was.count + 1
    && level.total == Raised(was, qty).total
  }

  lemma AddViews(was: seq<Slot>, store: seq<Slot>, nodes: seq<nat>, n: nat)
    requires n !in nodes && |store| == |was|
    requires forall m :: 0 <= m < |was| && m != n ==> SameButLinks(was[m], store[m])
    ensures Rests(store, nodes) == Rests(was, nodes)
  {
    forall i | 0 <= i < |nodes| ensures View(store, nodes[i]) == View(was, nodes[i]) { assert nodes[i] in nodes; }
  }

  lemma AddLevel(was: seq<Slot>, store: seq<Slot>, level: Level, level': Level, nodes: seq<nat>, n: nat, o: Order)
    requires LevelOK(was, level, nodes) && n !in nodes
    requires Apart(was, store, n, nodes) && SameButLinks(Live(o), store[n])
    requires LevelGained(store, level, level', nodes + [n], o.qty)
    ensures LevelOK(store, level', nodes + [n])
  {
    AddTotal(was, store, nodes, n);
    WrapSum(Total(Rests(was, nodes)), o.qty);
    hide ListAt, Apart;
  }

  lemma AddTotal(was: seq<Slot>, store: seq<Slot>, nodes: seq<nat>, n: nat)
    requires n !in nodes && |store| == |was|
    requires forall m :: 0 <= m < |was| && m != n ==> SameButLinks(was[m], store[m])
    ensures Total(Rests(store, nodes + [n])) == Total(Rests(was, nodes)) + View(store, n).qty
  {
    AddViews(was, store, nodes, n);
    assert Rests(store, nodes + [n]) == Rests(was, nodes) + [View(store, n)];
    TotalAppend(Rests(was, nodes), [View(store, n)]);
  }

  lemma AddSame(r: Rep, r': Rep, s: Side, l: nat, o: Order)
    requires LevelsOK(r.store, r.Levels(s), r.Queues(s)) && Placed(r.store, s, r.Queues(s))
    requires l < |r.Queues(s)| && r.free != [] && r.free[0] < |r.store| && r.store[r.free[0]].Free?
    requires Added(r, r', s, l, o) && o.side == s && o.levelIdx == l
    ensures LevelsOK(r'.store, r'.Levels(s), r'.Queues(s)) && Placed(r'.store, s, r'.Queues(s))
  {
    var q, n, level := r.Queues(s), r.free[0], r'.Levels(s)[l];
    assert LevelOK(r.store, r.Levels(s)[l], q[l]);
    AddLevel(r.store, r'.store, r.Levels(s)[l], level, q[l], n, o);
    SameSideFrame(r.store, r'.store, r.Levels(s), s, q, l, n, level, q[l] + [n]);
    AddPlaced(r.store, r'.store, s, q, l, n, o);
  }

  lemma AddPlaced(was: seq<Slot>, store: seq<Slot>, s: Side, q: seq<seq<nat>>, l: nat, n: nat, o: Order)
    requires Placed(was, s, q) && l < |q|
    requires Apart(was, store, n, q[l]) && was[n].Free? && SameButLinks(Live(o), store[n])
    requires o.side == s && o.levelIdx == l
    ensures Placed(store, s, q[l := q[l] + [n]])
  {
    var q' := q[l := q[l] + [n]];
    forall j, m | 0 <= j < |q'| && m in q'[j]
      ensures m < |store| && store[m].Live? && store[m].order.side == s && store[m].order.levelIdx == j
    {
      if m != n { assert m in q[j]; }
    }
  }

  lemma AddOther(r: Rep, r': Rep, s: Side, l: nat, o: Order)
    requires var t := s.Opposite(); LevelsOK(r.store, r.Levels(t), r.Queues(t)) && Placed(r.store, t, r.Queues(t))
    requires Placed(r.store, s, r.Queues(s)) && l < |r.Queues(s)| == |r.Levels(s)|
    requires r.free != [] && r.free[0] < |r.store| && r.store[r.free[0]].Free?
    requires Added(r, r', s, l, o)
    ensures var t := s.Opposite();
      && LevelsOK(r'.store, r'.Levels(t), r'.Queues(t)) && Placed(r'.store, t, r'.Queues(t))
      && Abs(r').On(t) == Abs(r).On(t)
  {
    var t := s.Opposite();
    OtherSideFrame(r.store, r'.store, r.Levels(t), t, r.Queues(t), r.free[0], r.Queues(s)[l]);
  }

  lemma AddAccounted(c: Config, r: Rep, r': Rep, s: Side, l: nat, o: Order)
    requires Accounted(c, r) && Distinct(r.free)
    requires l < |r.Queues(s)| == |r.Levels(s)| && r.free != [] && r.free[0] < |r.store|
    requires Added(r, r', s, l, o) && o.side == s && o.levelIdx == l && OrderOK(c, o) && o.id !in r.index
    ensures Accounted(c, r')
  {
    AddCovered(r, r', s, l, r.free[0], o);
    AddOrders(c, r.store, r'.store, r.free, o);
    AddIndexed(r.store, r'.store, r.index, r.free[0], o);
  }

  lemma AddCovered(r: Rep, r': Rep, s: Side, l: nat, n: nat, o: Order)
    requires Covered(r) && l < |r.Queues(s)| && o.side == s && o.levelIdx == l
    requires Apart(r.store, r'.store, n, r.Queues(s)[l]) && SameButLinks(Live(o), r'.store[n])
    requires r'.Queues(s) == r.Queues(s)[l := r.Queues(s)[l] + [n]]
    requires r'.Queues(s.Opposite()) == r.Queues(s.Opposite())
    ensures Covered(r')
  {
    forall m | 0 <= m < |r'.store| && r'.store[m].Live?
      ensures var o := r'.store[m].order; o.levelIdx < |r'.Queues(o.side)| && m in r'.Queues(o.side)[o.levelIdx]
    {
      if m != n {
        assert SameButLinks(r.store[m], r'.store[m]);
        assert r.store[m].order.side == s || r.store[m].order.side == s.Opposite();
      }
    }
  }

  lemma AddOrders(c: Config, was: seq<Slot>, store: seq<Slot>, free: seq<nat>, o: Order)
    requires OrdersOK(c, was) && FreeOK(was, free) && OrderOK(c, o)
    requires free != [] && Distinct(free) && free[0] < |was| == |store| && SameButLinks(Live(o), store[free[0]])
    requires forall m :: 0 <= m < |was| && m != free[0] ==> SameButLinks(was[m], store[m])
    ensures OrdersOK(c, store) && FreeOK(store, free[1..])
  {
    forall m: nat ensures m in free <==> m == free[0] || m in free[1..] {}
    forall m | 0 <= m < |store| ensures store[m].Free? <==> m in free[1..] {
      if m != free[0] { assert SameButLinks(was[m], store[m]); }
    }
  }

  lemma AddIndexed(was: seq<Slot>, store: seq<Slot>, index: map<OrderId, int>, n: nat, o: Order)
    requires Indexed(was, index) && n < |was| == |store| && SameButLinks(Live(o), store[n])
    requires forall m :: 0 <= m < |was| && m != n ==> SameButLinks(was[m], store[m])
    requires was[n].Free? && o.id !in index
    ensures Indexed(store, index[o.id := n])
  {
  }

  /** Insert puts an order behind everything not worse and before everything worse. */
  lemma {:induction false} InsertAt(s: Side, pre: seq<Resting>, post: seq<Resting>, o: Resting)
    requires forall i :: 0 <= i < |pre| ==> !Ahead(s, o.price, pre[i].price)
    requires post != [] ==> Ahead(s, o.price, post[0].price)
    ensures Insert(s, pre + post, o) == pre + [o] + post
  {
    if pre == [] {
      assert pre + post == post;
    } else {
      assert (pre + post)[1..] == pre[1..] + post;
      InsertAt(s, pre[1..], post, o);
    }
  }

  lemma AddFlat(was: seq<Slot>, store: seq<Slot>, s: Side, q: seq<seq<nat>>, l: nat, n: nat, i: nat)
    requires l < |q| && i == |NodesBefore(s, q, l)| + |q[l]| && n !in Flatten(s, q)
    requires |store| == |was| && forall m :: 0 <= m < |was| && m != n ==> SameButLinks(was[m], store[m])
    ensures i <= |Flatten(s, q)| && |Flatten(s, q[l := q[l] + [n]])| == |Flatten(s, q)| + 1
    ensures Rests(store, Flatten(s, q[l := q[l] + [n]]))
         == Rests(was, Flatten(s, q))[..i] + [View(store, n)] + Rests(was, Flatten(s, q))[i..]
  {
    hide Flatten, NodesBefore, NodesAfter, Rests, SameButLinks, View;
    FlattenAt(s, q, l, q[l] + [n]);
    PutBehind(NodesBefore(s, q, l), q[l], n, NodesAfter(s, q, l));
    AddViews(was, store, Flatten(s, q), n);
    RestsAround(store, Flatten(s, q), i, n);
  }

  lemma PutBehind(a: seq<nat>, m: seq<nat>, n: nat, b: seq<nat>)
    ensures var f, i := a + m + b, |a| + |m|; a + (m + [n]) + b == f[..i] + [n] + f[i..]
  {
  }

  lemma RestsAround(store: seq<Slot>, f: seq<nat>, i: nat, n: nat)
    requires i <= |f|
    ensures Rests(store, f[..i] + [n] + f[i..]) == Rests(store, f)[..i] + [View(store, n)] + Rests(store, f)[i..]
  {
    hide View;
  }

  /** In the flattened side the orders of levels up to rank(l) come first, and their prices are not worse than
      level l's. */
  lemma PricesAround(c: Config, r: Rep, s: Side, l: nat, i: nat, price: Price)
    requires Placed(r.store, s, r.Queues(s)) && OrdersOK(c, r.store)
    requires l < c.numLevels == |r.Queues(s)| && i == |NodesBefore(s, r.Queues(s), l)| + |r.Queues(s)[l]|
    requires c.InRange(price) && l == price - c.basePrice
    ensures i <= |Abs(r).On(s)|
    ensures forall j :: 0 <= j < i ==> !Ahead(s, price, Abs(r).On(s)[j].price)
    ensures forall j :: i <= j < |Abs(r).On(s)| ==> Ahead(s, price, Abs(r).On(s)[j].price)
  {
    var q, rank := r.Queues(s), Rank(s, c.numLevels, l);
    var a, b := Chain(s, q, 0, rank + 1), Chain(s, q, rank + 1, |q|);
    forall j | 0 <= j < |a| ensures NotWorse(r.store, s, price, a[j]) {
      ChainPlaced(r.store, s, q, 0, rank + 1, j);
    }
    forall j | 0 <= j < |b| ensures Worse(r.store, s, price, b[j]) {
      ChainPlaced(r.store, s, q, rank + 1, |q|, j);
    }
    JoinHalves(r.store, s, q, l, price, i);
    var os := Abs(r).On(s);
    forall j | 0 <= j < i ensures !Ahead(s, price, os[j].price) {
      assert NotWorse(r.store, s, price, Flatten(s, q)[j]);
    }
    forall j | i <= j < |os| ensures Ahead(s, price, os[j].price) {
      assert Worse(r.store, s, price, Flatten(s, q)[j]);
    }
  }

  predicate NotWorse(store: seq<Slot>, s: Side, price: Price, n: nat) {
    !Ahead(s, price, View(store, n).price)
  }

  predicate Worse(store: seq<Slot>, s: Side, price: Price, n: nat) {
    Ahead(s, price, View(store, n).price)
  }

  lemma JoinHalves(store: seq<Slot>, s: Side, q: seq<seq<nat>>, l: nat, price: Price, i: nat)
    requires l < |q| && i == |NodesBefore(s, q, l)| + |q[l]|
    requires var a := Chain(s, q, 0, Rank(s, |q|, l) + 1); forall j :: 0 <= j < |a| ==> NotWorse(store, s, price, a[j])
    requires var b := Chain(s, q, Rank(s, |q|, l) + 1, |q|); forall j :: 0 <= j < |b| ==> Worse(store, s, price, b[j])
    ensures i <= |Flatten(s, q)|
    ensures forall j :: 0 <= j < i ==> NotWorse(store, s, price, Flatten(s, q)[j])
    ensures forall j :: i <= j < |Flatten(s, q)| ==> Worse(store, s, price, Flatten(s, q)[j])
  {
    FlattenHalves(s, q, l);
  }

  lemma FlattenHalves(s: Side, q: seq<seq<nat>>, l: nat)
    requires l < |q|
    ensures var rank := Rank(s, |q|, l);
      && Flatten(s, q) == Chain(s, q, 0, rank + 1) + Chain(s, q, rank + 1, |q|)
      && |Chain(s, q, 0, rank + 1)| == |NodesBefore(s, q, l)| + |q[l]|
  {
    var rank := Rank(s, |q|, l);
    ChainSplit(s, q, 0, rank + 1, |q|);
    ChainSplit(s, q, 0, rank, rank + 1);
    assert Chain(s, q, rank + 1, rank + 1) == [];
  }

  lemma AddAbs(r: Rep, r': Rep, s: Side, l: nat, n: nat, i: nat, o: Resting)
    requires l < |r.Queues(s)| && i == |NodesBefore(s, r.Queues(s), l)| + |r.Queues(s)[l]| <= |Abs(r).On(s)|
    requires forall j :: 0 <= j < i ==> !Ahead(s, o.price, Abs(r).On(s)[j].price)
    requires forall j :: i <= j < |Abs(r).On(s)| ==> Ahead(s, o.price, Abs(r).On(s)[j].price)
    requires n !in Flatten(s, r.Queues(s)) && View(r'.store, n) == o
    requires Apart(r.store, r'.store, n, r.Queues(s)[l])
    requires r'.Queues(s) == r.Queues(s)[l := r.Queues(s)[l] + [n]]
    ensures Abs(r').On(s) == Insert(s, Abs(r).On(s), o)
    ensures |Flatten(s, r'.Queues(s))| == |Flatten(s, r.Queues(s))| + 1
  {
    var os := Abs(r).On(s);
    AddFlat(r.store, r'.store, s, r.Queues(s), l, n, i);
    InsertAt(s, os[..i], os[i..], o);
    assert os[..i] + os[i..] == os;
  }

  lemma NotQueued(store: seq<Slot>, s: Side, q: seq<seq<nat>>, n: nat)
    requires Placed(store, s, q) && n < |store| && store[n].Free?
    ensures n !in Flatten(s, q)
  {
    var f := Flatten(s, q);
    if n in f {
      var i :| 0 <= i < |f| && f[i] == n;
      ChainPlaced(store, s, q, 0, |q|, i);
    }
  }

  lemma AddKeeps(c: Config, r: Rep, r': Rep, s: Side, l: nat, o: Order)
    requires Core(c, r) && Counted(r) && l < c.numLevels
    requires r.free != [] && Distinct(r.free) && r.free[0] < |r.store| && r.store[r.free[0]].Free?
    requires Added(r, r', s, l, o) && o.side == s && o.levelIdx == l && OrderOK(c, o) && o.id !in r.index
    ensures Core(c, r') && Counted(r')
    ensures Abs(r') == Abs(r).With(s, Insert(s, Abs(r).On(s), Resting(o.id, o.price, o.qty)))
  {
    AddSame(r, r', s, l, o);
    AddOther(r, r', s, l, o);
    AddAccounted(c, r, r', s, l, o);
    var i := |NodesBefore(s, r.Queues(s), l)| + |r.Queues(s)[l]|;
    PricesAround(c, r, s, l, i, o.price);
    NotQueued(r.store, s, r.Queues(s), r.free[0]);
    AddAbs(r, r', s, l, r.free[0], i, Resting(o.id, o.price, o.qty));
  }

  // ----- frames: what a change in one place leaves alone ---------------------------------

  /** From r to r' the k-th order of level l on side s left its list, nothing else yet. */
  ghost predicate Unlinked(r: Rep, r': Rep, s: Side, l: nat, k: nat)
    requires l < |r.Queues(s)| == |r.Levels(s)| && k < |r.Queues(s)[l]|
    requires var n := r.Queues(s)[l][k]; n < |r.store| && r.store[n].Live?
  {
    var q, levels := r.Queues(s), r.Levels(s);
    var n := q[l][k];
    && Apart(r.store, r'.store, n, q[l]) && r'.store[n].Live? && r'.store[n].order.id == r.store[n].order.id
    && r'.free == r.free && r'.index == r.index
    && r'.Queues(s) == q[l := Without(q[l], k)] && r'.Queues(s.Opposite()) == r.Queues(s.Opposite())
    && |r'.Levels(s)| == |levels| && r'.Levels(s.Opposite()) == r.Levels(s.Opposite())
    && r'.Levels(s) == levels[l := r'.Levels(s)[l]]
    && LevelLost(r'.store, levels[l], r'.Levels(s)[l], Without(q[l], k), r.store[n].order.qty)
  }

  /** The representation after the k-th order of level l left its list. */
  function Left(r: Rep, s: Side, l: nat, k: nat, store: seq<Slot>, levels: seq<Level>): Rep
    requires l < |r.Queues(s)| && k < |r.Queues(s)[l]|
  {
    var q := r.Queues(s)[l := Without(r.Queues(s)[l], k)];
    if s.Buy? then r.(store := store, bids := levels, bidQ := q) else r.(store := store, asks := levels, askQ := q)
  }

  lemma LeftIsUnlinked(r: Rep, s: Side, l: nat, k: nat, store: seq<Slot>, levels: seq<Level>)
    requires l < |r.Queues(s)| == |r.Levels(s)| && k < |r.Queues(s)[l]|
    requires var n := r.Queues(s)[l][k];
      && n < |r.store| && r.store[n].Live?
      && Apart(r.store, store, n, r.Queues(s)[l]) && store[n].Live? && store[n].order.id == r.store[n].order.id
      && |levels| == |r.Levels(s)| && levels == r.Levels(s)[l := levels[l]]
      && LevelLost(store, r.Levels(s)[l], levels[l], Without(r.Queues(s)[l], k), r.store[n].order.qty)
    ensures Unlinked(r, Left(r, s, l, k, store, levels), s, l, k)
  {
    hide LevelLost, Apart;
  }

  /** Unlinking the order, then erasing its id and freeing its slot, drops it. */
  lemma UnlinkedThenFreed(r: Rep, r1: Rep, r2: Rep, s: Side, l: nat, k: nat)
    requires l < |r.Queues(s)| == |r.Levels(s)| && k < |r.Queues(s)[l]|
    requires var n := r.Queues(s)[l][k]; n < |r.store| && r.store[n].Live?
    requires Unlinked(r, r1, s, l, k) && Distinct(r.Queues(s)[l])
    requires var n := r.Queues(s)[l][k];
      && |r2.store| == |r1.store| && r2.store[n].Free?
      && (forall m :: 0 <= m < |r1.store| && m != n ==> r2.store[m] == r1.store[m])
      && r2.free == [n] + r1.free && r2.index == r1.index - {r.store[n].order.id}
      && r2.bids == r1.bids && r2.asks == r1.asks && r2.bidQ == r1.bidQ && r2.askQ == r1.askQ
    ensures Dropped(r, r2, s, l, k)
  {
    var nodes, n, level := r.Queues(s)[l], r.Queues(s)[l][k], r1.Levels(s)[l];
    WithoutMembers(nodes, k);
    ListFrame(r1.store, r2.store, level.head, level.tail, Without(nodes, k));
  }

  lemma UnlinkedFacts(r: Rep, r': Rep, s: Side, l: nat, k: nat)
    requires l < |r.Queues(s)| == |r.Levels(s)| && k < |r.Queues(s)[l]|
    requires LevelOK(r.store, r.Levels(s)[l], r.Queues(s)[l])
    requires var n := r.Queues(s)[l][k]; n < |r.store| && r.store[n].Live?
    requires Unlinked(r, r', s, l, k)
    ensures r'.free == r.free && r'.index == r.index && Distinct(r.Queues(s)[l])
  {
  }

  lemma ShrinkFacts(c: Config, r: Rep, n: nat)
    requires Core(c, r) && n < |r.store| && r.store[n].Live?
    ensures |r.bids| == |r.asks| == c.numLevels && r.store[n].order.levelIdx < c.numLevels
  {
  }

  lemma ShrunkKeepsCount(r: Rep, n: nat, qty: Quantity)
    requires n < |r.store| && r.store[n].Live? && r.store[n].order.levelIdx < |r.Levels(r.store[n].order.side)|
    ensures Counted(r) ==> Counted(Shrunk(r, n, qty))
  {
  }

  lemma ShrunkThreaded(r: Rep, n: nat, qty: Quantity, head: int)
    requires n < |r.store| && r.store[n].Live? && r.store[n].order.levelIdx < |r.Levels(r.store[n].order.side)|
    requires Threaded(r.store, head, r.free)
    ensures Threaded(Shrunk(r, n, qty).store, head, r.free)
  {
  }

  lemma LevelCount(store: seq<Slot>, level: Level, nodes: seq<nat>)
    requires LevelOK(store, level, nodes)
    ensures level.count == |nodes| && level.total == Wrap32(Total(Rests(store, nodes)))
  {
  }

  /** Writing an order into a slot that just left the free list disturbs neither that list nor a level. */
  lemma FreshSlotFrame(store: seq<Slot>, head: int, free: seq<nat>, p: nat, slot: Slot, level: Level, nodes: seq<nat>)
    requires Threaded(store, head, free) && p < |store| && p !in free && p !in nodes
    requires LevelOK(store, level, nodes)
    ensures Threaded(store[p := slot], head, free)
    ensures LevelOK(store[p := slot], level, nodes)
  {
    forall m | m in nodes ensures m < |store| && store[p := slot][m] == store[m] {
      var i :| 0 <= i < |nodes| && nodes[i] == m;
      assert Linked(store, nodes, i);
    }
    LevelFrame(store, store[p := slot], level, nodes);
  }

  /** The representation after slot p, on top of the free list, joined level l for id. */
  function Joined(r: Rep, s: Side, l: nat, id: OrderId, p: nat, store: seq<Slot>, levels: seq<Level>): Rep
    requires l < |r.Queues(s)| && r.free != []
  {
    var q := r.Queues(s)[l := r.Queues(s)[l] + [p]];
    var r' := r.(store := store, free := r.free[1..], index := r.index[id := p]);
    if s.Buy? then r'.(bids := levels, bidQ := q) else r'.(asks := levels, askQ := q)
  }

  lemma JoinedIsAdded(r: Rep, s: Side, l: nat, o: Order, p: nat, store: seq<Slot>, levels: seq<Level>)
    requires l < |r.Queues(s)| == |r.Levels(s)| && r.free != [] && p == r.free[0] < |r.store|
    requires Apart(r.store, store, p, r.Queues(s)[l]) && SameButLinks(Live(o), store[p])
    requires |levels| == |r.Levels(s)| && levels == r.Levels(s)[l := levels[l]]
    requires LevelGained(store, r.Levels(s)[l], levels[l], r.Queues(s)[l] + [p], o.qty)
    ensures Added(r, Joined(r, s, l, o.id, p, store, levels), s, l, o)
  {
    hide Apart, LevelGained;
  }

  /** Fewer orders than slots: there is a free slot, and no level count is about to wrap. */
  lemma RoomFor(c: Config, r: Rep, s: Side, l: nat, head: int)
    requires Core(c, r) && Counted(r) && Threaded(r.store, head, r.free)
    requires c.Valid() && |r.store| == c.maxOrders && BookRep.Abs(r).Size() < c.maxOrders && l < c.numLevels
    ensures |r.bidQ| == |r.askQ| == |r.bids| == |r.asks| == c.numLevels
    ensures r.free != [] && Distinct(r.free) && r.free[0] < |r.store| && r.store[r.free[0]].Free?
    ensures LevelOK(r.store, r.Levels(s)[l], r.Queues(s)[l]) && r.Levels(s)[l].count + 1 < TWO_TO_THE_32
    ensures r.free[0] !in r.Queues(s)[l]
  {
    FlattenSplit(s, r.Queues(s), l);
    assert r.free[0] in r.free;
  }

  lemma LoweredKeeps(level: Level, amount: int)
    ensures Lowered(level, amount) == level.(total := Lowered(level, amount).total)
  {
  }

  lemma QtyThreaded(store: seq<Slot>, head: int, free: seq<nat>, n: nat, qty: Quantity)
    requires Threaded(store, head, free) && n < |store| && store[n].Live?
    ensures Threaded(store[n := Live(store[n].order.(qty := qty))], head, free)
  {
  }

  lemma QtyList(store: seq<Slot>, head: int, tail: int, nodes: seq<nat>, n: nat, qty: Quantity)
    requires ListAt(store, head, tail, nodes) && n < |store| && store[n].Live?
    ensures ListAt(store[n := Live(store[n].order.(qty := qty))], head, tail, nodes)
  {
    var store' := store[n := Live(store[n].order.(qty := qty))];
    forall i | 0 <= i < |nodes| ensures Linked(store', nodes, i) {
      assert Linked(store, nodes, i);
    }
  }

  lemma ApartAfterQty(was: seq<Slot>, mid: seq<Slot>, store: seq<Slot>, n: nat, nodes: seq<nat>)
    requires n < |was| == |mid| && (forall m :: 0 <= m < |was| && m != n ==> mid[m] == was[m])
    requires Relinked(mid, store, nodes)
    ensures Apart(was, store, n, nodes)
  {
    forall m | 0 <= m < |was| && m != n ensures SameButLinks(was[m], store[m]) && (m !in nodes ==> store[m] == was[m]) {
      assert mid[m] == was[m];
    }
  }

  lemma ListFrame(was: seq<Slot>, store: seq<Slot>, head: int, tail: int, nodes: seq<nat>)
    requires ListAt(was, head, tail, nodes) && |store| == |was|
    requires forall m :: m in nodes ==> m < |was| ==> store[m] == was[m]
    ensures ListAt(store, head, tail, nodes)
  {
    forall i | 0 <= i < |nodes| ensures Linked(store, nodes, i) {
      assert Linked(was, nodes, i) && nodes[i] in nodes;
    }
  }

  lemma LevelList(store: seq<Slot>, level: Level, nodes: seq<nat>)
    requires LevelOK(store, level, nodes)
    ensures ListAt(store, level.head, level.tail, nodes)
  {
  }

  lemma FirstFree(store: seq<Slot>, head: int, free: seq<nat>)
    requires Threaded(store, head, free) && free != []
    ensures head == free[0] < |store| && free[0] !in free[1..]
  {
  }

  lemma ApartAfter(was: seq<Slot>, store: seq<Slot>, p: nat, o: Order, nodes: seq<nat>)
    requires p < |was| && Relinked(was[p := Live(o)], store, nodes + [p])
    ensures Apart(was, store, p, nodes) && SameButLinks(Live(o), store[p])
  {
    forall m | 0 <= m < |was| && m != p ensures SameButLinks(was[m], store[m]) && (m !in nodes ==> store[m] == was[m]) {
      assert was[p := Live(o)][m] == was[m];
    }
  }

  lemma ThreadedFrame(was: seq<Slot>, store: seq<Slot>, head: int, free: seq<nat>, touched: seq<nat>)
    requires Threaded(was, head, free) && Relinked(was, store, touched)
    ensures Threaded(store, head, free)
  {
    forall i | 0 <= i < |free| ensures store[free[i]] == Free(At(free, i + 1)) {
      assert SameButLinks(was[free[i]], store[free[i]]);
    }
  }

  /** Clearing an emptied level's bit, and recovering the best level if it was that one, restores the edge. */
  lemma EdgeCleared(s: Side, q: seq<seq<nat>>, l: nat, members: set<nat>, best: nat, next: nat)
    requires Edge(s, q, members, best) && l < |q| < NO_BEST && l in members
    requires best != l ==> next == best
    requires best == l && next == NO_BEST ==> members - {l} == {}
    requires best == l && next != NO_BEST ==>
      next in members - {l} && forall m :: m in members - {l} ==> Rank(s, |q|, next) <= Rank(s, |q|, m)
    ensures Edge(s, q[l := []], members - {l}, next)
  {
  }

  lemma EdgeKept(s: Side, q: seq<seq<nat>>, l: nat, members: set<nat>, best: nat, nodes: seq<nat>)
    requires Edge(s, q, members, best) && l < |q| && q[l] != [] && nodes != []
    ensures Edge(s, q[l := nodes], members, best)
  {
  }

  /** Empty levels and a full free list are the representation of the empty book. */
  lemma EmptyCore(c: Config, r: Rep)
    requires |r.bids| == |r.asks| == |r.bidQ| == |r.askQ| == c.numLevels
    requires forall l :: 0 <= l < c.numLevels ==>
      r.bids[l] == EMPTY_LEVEL && r.asks[l] == EMPTY_LEVEL && r.bidQ[l] == [] && r.askQ[l] == []
    requires |r.free| == |r.store| && r.index == map[]
    requires forall n :: 0 <= n < |r.store| ==> r.store[n].Free? && r.free[n] == n
    ensures Core(c, r) && Counted(r) && BookRep.Abs(r) == Book([], [])
  {
    ChainEmpty(Buy, r.bidQ, 0, c.numLevels);
    ChainEmpty(Sell, r.askQ, 0, c.numLevels);
    forall l | 0 <= l < c.numLevels
      ensures LevelOK(r.store, r.bids[l], r.bidQ[l]) && LevelOK(r.store, r.asks[l], r.askQ[l])
    {
    }
    forall n | 0 <= n < |r.store| ensures n in r.free { assert r.free[n] == n; }
  }

  /** Only level l of side s differs between the two representations' queues. */
  ghost predicate OnlyLevel(r: Rep, r': Rep, s: Side, l: nat)
    requires l < |r.Queues(s)|
  {
    && |r'.Queues(s)| == |r.Queues(s)| && r'.Queues(s) == r.Queues(s)[l := r'.Queues(s)[l]]
    && r'.Queues(s.Opposite()) == r.Queues(s.Opposite())
  }

  lemma OnlyLevelStart(r: Rep, s: Side, l: nat)
    requires l < |r.Queues(s)|
    ensures OnlyLevel(r, r, s, l)
  {
  }

  lemma OnlyLevelStep(r: Rep, mid: Rep, r': Rep, s: Side, l: nat)
    requires l < |r.Queues(s)| == |mid.Queues(s)| && OnlyLevel(r, mid, s, l) && OnlyLevel(mid, r', s, l)
    ensures OnlyLevel(r, r', s, l) && |r'.Queues(s)| == |r.Queues(s)|
    ensures NodesBefore(s, r'.Queues(s), l) == NodesBefore(s, mid.Queues(s), l)
  {
    AroundFrame(s, mid.Queues(s), l, r'.Queues(s)[l]);
  }

  lemma ShrunkOnlyLevel(r: Rep, n: nat, qty: Quantity)
    requires n < |r.store| && r.store[n].Live? && r.store[n].order.levelIdx < |r.Levels(r.store[n].order.side)|
    requires r.store[n].order.levelIdx < |r.Queues(r.store[n].order.side)|
    ensures OnlyLevel(r, Shrunk(r, n, qty), r.store[n].order.side, r.store[n].order.levelIdx)
  {
  }

  lemma DroppedOnlyLevel(r: Rep, r': Rep, s: Side, l: nat)
    requires l < |r.Queues(s)| == |r.Levels(s)| && 0 < |r.Queues(s)[l]|
    requires var n := r.Queues(s)[l][0]; n < |r.store| && r.store[n].Live?
    requires Dropped(r, r', s, l, 0)
    ensures OnlyLevel(r, r', s, l)
  {
  }
}
