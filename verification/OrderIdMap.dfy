/** include/lob/order_id_map.hpp: open addressing with linear probing and backshift deletion, for an
    arbitrary hash function. */
module OrderIdMaps {
  import opened LobTypes
  import opened Words

  /** A slot is empty when its id is 0; its value is then whatever was left there. */
  datatype Entry = Entry(id: OrderId, value: int)

  type Table = seq<Entry>
  type Hash = OrderId -> nat

  /** Which erase a table uses: the one in the source, or the one its comment describes. */
  datatype Backshift = AsCoded | AsIntended

  // ----- positions ----------------------------------------------------------

  /** The ideal slot of a key: its hash reduced to the capacity. */
  function Home(h: Hash, cap: nat, id: OrderId): (i: nat)
    requires cap > 0
    ensures i < cap
  {
    Masked(h(id), cap)
  }

  /** The slot after i; the table is a ring. */
  function Next(cap: nat, i: nat): nat {
    if i + 1 == cap then 0 else i + 1
  }

  function Prev(cap: nat, i: nat): nat {
    if i > 0 then i - 1 else if cap > 0 then cap - 1 else 0
  }

  /** Cyclic steps from one slot to another. */
  function Dist(cap: int, from: int, to: int): int {
    if from <= to then to - from else to - from + cap
  }

  lemma DistInjective(n: nat, p: nat, i: nat, j: nat)
    requires p < n && i < n && j < n
    ensures Dist(n, p, i) == Dist(n, p, j) ==> i == j
  {
  }

  /** Going forward from `from`, slot k comes before slot `to`. */
  predicate Before(cap: int, from: int, k: int, to: int) {
    Dist(cap, from, k) < Dist(cap, from, to)
  }

  /** Slot k lies strictly between `from` and `to`. */
  predicate Between(cap: int, from: int, k: int, to: int) {
    0 < Dist(cap, from, k) < Dist(cap, from, to)
  }

  // ----- the invariant ---------------------------------------------------------

  /** Every slot a search for the entry at j passes before j is occupied. */
  ghost predicate Reachable(h: Hash, t: Table, j: nat)
    requires j < |t|
  {
    forall k {:trigger Before(|t|, Home(h, |t|, t[j].id), k, j)} ::
      0 <= k < |t| && Before(|t|, Home(h, |t|, t[j].id), k, j) ==> t[k].id != 0
  }

  ghost predicate AllReachable(h: Hash, t: Table) {
    forall j {:trigger Reachable(h, t, j)} :: 0 <= j < |t| && t[j].id != 0 ==> Reachable(h, t, j)
  }

  ghost predicate HasEmpty(t: Table) {
    exists e :: 0 <= e < |t| && t[e].id == 0
  }

  /** The occupied slots hold exactly the entries of m, each key once, at its place. */
  ghost predicate Holds(t: Table, m: map<OrderId, int>, places: map<OrderId, nat>) {
    && m.Keys == places.Keys
    && (forall j :: 0 <= j < |t| && t[j].id != 0 ==> t[j].id in places && places[t[j].id] == j)
    && (forall id :: id in places ==> id != 0 && places[id] < |t| && t[places[id]] == Entry(id, m[id]))
  }

  /** A search for id, which stops at the first empty slot, meets it. */
  ghost predicate Finds(h: Hash, t: Table, id: OrderId) {
    exists j :: 0 <= j < |t| && t[j].id == id && Reachable(h, t, j)
  }

  /** The slot where the search for id stops: at id itself or at an empty slot, everything before it
      on the way from the home slot being occupied by other ids. */
  ghost predicate StopsAt(h: Hash, t: Table, id: OrderId, i: nat) {
    && i < |t|
    && (t[i].id == id || t[i].id == 0)
    && PassedUpTo(h, t, id, i)
  }

  ghost predicate PassedUpTo(h: Hash, t: Table, id: OrderId, i: nat)
    requires |t| > 0
  {
    forall k {:trigger Before(|t|, Home(h, |t|, id), k, i)} ::
      0 <= k < |t| && Before(|t|, Home(h, |t|, id), k, i) ==> t[k].id != 0 && t[k].id != id
  }

  lemma StopDecides(h: Hash, t: Table, id: OrderId, i: nat)
    requires id != 0 && StopsAt(h, t, id, i)
    ensures t[i].id == id <==> Finds(h, t, id)
    ensures t[i].id == 0 && AllReachable(h, t) ==> forall j :: 0 <= j < |t| ==> t[j].id != id
  {
    if t[i].id == 0 {
      forall j | 0 <= j < |t| && t[j].id == id ensures !Reachable(h, t, j) {
        var d := Home(h, |t|, id);
        assert !Before(|t|, d, j, i);
        DistInjective(|t|, d, i, j);
        assert Before(|t|, d, i, j);
      }
    }
  }

  // ----- what the coded erase does -----------------------------------------------

  /** Every entry after p up to g is away from its home slot, so the shifting moves it. */
  ghost predicate AllMovable(h: Hash, t: Table, p: nat, g: nat) {
    forall k :: 0 <= k < |t| && 0 < Dist(|t|, p, k) <= Dist(|t|, p, g) ==> t[k].id != 0 && Home(h, |t|, t[k].id) != k
  }

  /** From the erased slot p the shifting moves every entry that is not in its home slot one step
      back and ends with the hole at g: the slot after g is empty or holds an entry at home. */
  ghost predicate ShiftEnd(h: Hash, t: Table, p: nat, g: nat) {
    && p < |t| && g < |t|
    && AllMovable(h, t, p, g)
    && var n := Next(|t|, g); (t[n].id == 0 || Home(h, |t|, t[n].id) == n)
  }

  /** Where the entry now in slot k of the shifted table was before, and where the entry of slot j goes. */
  function Source(n: nat, p: nat, g: nat, k: nat): nat {
    if Dist(n, p, k) < Dist(n, p, g) then Next(n, k) else k
  }

  function Target(n: nat, p: nat, g: nat, j: nat): nat {
    if Dist(n, p, j) > Dist(n, p, g) then j else Prev(n, j)
  }

  lemma SourceTarget(n: nat, p: nat, g: nat, k: nat)
    requires p < n && g < n && k < n
    ensures Source(n, p, g, k) < n && Target(n, p, g, k) < n
    ensures k != g ==> Source(n, p, g, k) != p && Target(n, p, g, Source(n, p, g, k)) == k
    ensures k != p ==> Target(n, p, g, k) != g && Source(n, p, g, Target(n, p, g, k)) == k
  {
  }

  /** The entries of t from p to g moved one step back; slot g still holds its old content. */
  ghost predicate Shifting(t: Table, p: nat, g: nat, t': Table)
    requires p < |t| && g < |t|
  {
    |t'| == |t| && forall k :: 0 <= k < |t| && Source(|t|, p, g, k) < |t| ==> t'[k] == t[Source(|t|, p, g, k)]
  }

  /** The table after the shift, with the hole marked empty. */
  ghost predicate Shifted(t: Table, p: nat, g: nat, t': Table)
    requires p < |t| && g < |t|
  {
    && |t'| == |t|
    && t'[g] == Entry(0, t[g].value)
    && forall k :: 0 <= k < |t| && k != g && Source(|t|, p, g, k) < |t| ==> t'[k] == t[Source(|t|, p, g, k)]
  }

  /** Everything strictly between g and j, going forward from g, is occupied. */
  ghost predicate SameCluster(t: Table, g: nat, j: nat) {
    forall k {:trigger Between(|t|, g, k, j)} :: 0 <= k < |t| && Between(|t|, g, k, j) ==> t[k].id != 0
  }

  /** No entry of the cluster after g has g on its probe path. */
  ghost predicate Unneeded(h: Hash, t: Table, g: nat) {
    forall j {:trigger SameCluster(t, g, j)} :: 0 <= j < |t| && j != g && t[j].id != 0 && SameCluster(t, g, j) ==>
      Dist(|t|, Home(h, |t|, t[j].id), j) < Dist(|t|, g, j)
  }

  /** The coded erase of id starts at p and leaves its hole at g. */
  ghost predicate ErasesAt(h: Hash, t: Table, id: OrderId, p: nat, g: nat) {
    p < |t| && g < |t| && t[p].id == id && ShiftEnd(h, t, p, g)
  }

  /** Erasing id the coded way leaves every other key findable. */
  ghost predicate EraseSafe(h: Hash, t: Table, id: OrderId) {
    exists p, g :: ErasesAt(h, t, id, p, g) && Unneeded(h, t, g)
  }

  /** What the coded erase of id makes of the table. */
  ghost predicate ErasedFrom(h: Hash, t: Table, id: OrderId, t': Table) {
    exists p, g :: ErasesAt(h, t, id, p, g) && Shifted(t, p, g, t')
  }

  /** What an insert of a fresh id makes of the table: the slot where its search stops is filled. */
  ghost predicate InsertedInto(h: Hash, t: Table, id: OrderId, value: int, t': Table) {
    exists i: nat :: StopsAt(h, t, id, i) && t[i].id == 0 && t' == t[i := Entry(id, value)]
  }

  /** Clusters ordered by home slot: an entry is at most one step further from home than the entry before it. */
  ghost predicate RobinHood(h: Hash, t: Table) {
    forall j :: 0 <= j < |t| && t[j].id != 0 && t[Next(|t|, j)].id != 0 ==>
      Dist(|t|, Home(h, |t|, t[Next(|t|, j)].id), Next(|t|, j)) <= Dist(|t|, Home(h, |t|, t[j].id), j) + 1
  }

  lemma ShiftEndUnique(h: Hash, t: Table, p: nat, g: nat, g': nat)
    requires ShiftEnd(h, t, p, g) && ShiftEnd(h, t, p, g') && t[p].id != 0 && HasEmpty(t)
    ensures g == g'
  {
    ShiftEndFirst(h, t, p, g, g');
    ShiftEndFirst(h, t, p, g', g);
  }

  lemma ShiftEndFirst(h: Hash, t: Table, p: nat, g: nat, g': nat)
    requires ShiftEnd(h, t, p, g) && ShiftEnd(h, t, p, g')
    ensures Dist(|t|, p, g') <= Dist(|t|, p, g)
  {
    var n := Next(|t|, g);
    assert 0 <= n < |t|;
    assert n == p || Dist(|t|, p, n) == Dist(|t|, p, g) + 1;
  }

  ghost function ShiftPlaces(n: nat, p: nat, g: nat, places: map<OrderId, nat>, id: OrderId): map<OrderId, nat> {
    map x | x in places && x != id :: Target(n, p, g, places[x])
  }

  lemma ShiftKeepsEntries(t: Table, m: map<OrderId, int>, places: map<OrderId, nat>, p: nat, g: nat, t': Table)
    requires Holds(t, m, places)
    requires p < |t| && g < |t| && t[p].id != 0
    requires Shifted(t, p, g, t')
    ensures HasEmpty(t') && Holds(t', m - {t[p].id}, ShiftPlaces(|t|, p, g, places, t[p].id))
  {
    assert t'[g].id == 0;
    var n, m', places' := |t|, m - {t[p].id}, ShiftPlaces(|t|, p, g, places, t[p].id);
    assert m'.Keys == places'.Keys;
    forall j | 0 <= j < n && t'[j].id != 0 ensures t'[j].id in places' && places'[t'[j].id] == j {
      SourceTarget(n, p, g, j);
      assert t'[j] == t[Source(n, p, g, j)];
    }
    forall x | x in places' ensures places'[x] < n && t'[places'[x]] == Entry(x, m'[x]) {
      SourceTarget(n, p, g, places[x]);
    }
  }

  /** Exactly when nobody needs the hole is every entry still reachable after the coded erase. */
  lemma ShiftReachable(h: Hash, t: Table, p: nat, g: nat, t': Table)
    requires AllReachable(h, t) && HasEmpty(t)
    requires ShiftEnd(h, t, p, g) && t[p].id != 0 && Shifted(t, p, g, t')
    ensures AllReachable(h, t') <==> Unneeded(h, t, g)
  {
    var n := |t|;
    if Unneeded(h, t, g) {
      forall j | 0 <= j < n && t'[j].id != 0 ensures Reachable(h, t', j) {
        if Dist(n, p, j) < Dist(n, p, g) { ShiftedEntryReachable(h, t, p, g, t', j); }
        else { LaterEntryReachable(h, t, p, g, t', j); }
      }
    } else {
      var j :| 0 <= j < n && j != g && t[j].id != 0 && SameCluster(t, g, j)
               && !(Dist(n, Home(h, n, t[j].id), j) < Dist(n, g, j));
      NotWrapped(h, t, p, g, j);
      assert t'[j] == t[j];
      assert Before(n, Home(h, n, t[j].id), g, j);
      assert !Reachable(h, t', j);
    }
  }

  /** The cluster after the hole ends before it comes round to the erased slot. */
  lemma NotWrapped(h: Hash, t: Table, p: nat, g: nat, j: nat)
    requires HasEmpty(t) && ShiftEnd(h, t, p, g) && t[p].id != 0
    requires j < |t| && j != g && t[j].id != 0 && SameCluster(t, g, j)
    ensures Dist(|t|, p, g) < Dist(|t|, p, j)
  {
    var e :| 0 <= e < |t| && t[e].id == 0;
    assert Dist(|t|, p, g) < Dist(|t|, p, e);
    assert !Between(|t|, g, e, j);
  }

  lemma ShiftedEntryReachable(h: Hash, t: Table, p: nat, g: nat, t': Table, j: nat)
    requires AllReachable(h, t) && HasEmpty(t)
    requires ShiftEnd(h, t, p, g) && t[p].id != 0 && Shifted(t, p, g, t')
    requires j < |t| && Dist(|t|, p, j) < Dist(|t|, p, g)
    ensures Reachable(h, t', j)
  {
    var n, i := |t|, Next(|t|, j);
    SourceTarget(n, p, g, j);
    assert t'[j] == t[i];
    assert Dist(n, p, i) == Dist(n, p, j) + 1;
    var d := Home(h, n, t[i].id);
    assert Reachable(h, t, i);
    var e :| 0 <= e < n && t[e].id == 0;
    assert Dist(n, p, g) < Dist(n, p, e);
    assert !Before(n, d, e, i);
    forall k | 0 <= k < n && Before(n, d, k, j) ensures t'[k].id != 0 {
      PathMissesHole(n, p, g, d, j, e, k);
      assert Before(n, d, k, i);
      SourceOccupied(h, t, p, g, k);
    }
  }

  lemma PathMissesHole(n: nat, p: nat, g: nat, d: nat, j: nat, e: nat, k: nat)
    requires p < n && g < n && d < n && j < n && e < n && k < n && d != Next(n, j)
    requires Dist(n, p, j) < Dist(n, p, g) < Dist(n, p, e)
    requires Dist(n, d, Next(n, j)) <= Dist(n, d, e)
    requires Dist(n, d, k) < Dist(n, d, j)
    ensures k != g && Dist(n, d, k) < Dist(n, d, Next(n, j))
  {
  }

  /** Shifting brings an occupied slot's worth of content to every occupied slot but the hole. */
  lemma SourceOccupied(h: Hash, t: Table, p: nat, g: nat, k: nat)
    requires ShiftEnd(h, t, p, g) && k < |t| && k != g && t[k].id != 0
    ensures Source(|t|, p, g, k) < |t| && t[Source(|t|, p, g, k)].id != 0
  {
    SourceTarget(|t|, p, g, k);
    if Dist(|t|, p, k) < Dist(|t|, p, g) { assert Dist(|t|, p, Next(|t|, k)) == Dist(|t|, p, k) + 1; }
  }

  lemma LaterEntryReachable(h: Hash, t: Table, p: nat, g: nat, t': Table, j: nat)
    requires AllReachable(h, t) && HasEmpty(t) && Unneeded(h, t, g)
    requires ShiftEnd(h, t, p, g) && t[p].id != 0 && Shifted(t, p, g, t')
    requires j < |t| && Dist(|t|, p, j) >= Dist(|t|, p, g) && t'[j].id != 0
    ensures Reachable(h, t', j)
  {
    var n := |t|;
    assert j != g && Source(n, p, g, j) == j && t'[j] == t[j];
    var d := Home(h, n, t[j].id);
    assert Reachable(h, t, j);
    forall k | 0 <= k < n && Before(n, d, k, j) ensures t'[k].id != 0 {
      if k == g { OnPathMeansCluster(h, t, g, j); } else { SourceOccupied(h, t, p, g, k); }
    }
  }

  /** An entry whose probe path passes an occupied slot g is in the cluster after g. */
  lemma OnPathMeansCluster(h: Hash, t: Table, g: nat, j: nat)
    requires g < |t| && j < |t| && t[j].id != 0 && Reachable(h, t, j)
    requires Dist(|t|, Home(h, |t|, t[j].id), g) < Dist(|t|, Home(h, |t|, t[j].id), j)
    ensures j != g && SameCluster(t, g, j)
    ensures Dist(|t|, g, j) <= Dist(|t|, Home(h, |t|, t[j].id), j)
  {
    var n, d := |t|, Home(h, |t|, t[j].id);
    forall i | 0 <= i < n && Between(n, g, i, j) ensures t[i].id != 0 {
      assert Before(n, d, i, j);
    }
  }

  /** In a table whose clusters are ordered by home slot the coded erase is always right. */
  lemma RobinHoodIsSafe(h: Hash, t: Table, p: nat, g: nat)
    requires RobinHood(h, t) && HasEmpty(t)
    requires ShiftEnd(h, t, p, g)
    ensures Unneeded(h, t, g)
  {
    forall j | 0 <= j < |t| && j != g && t[j].id != 0 && SameCluster(t, g, j)
      ensures Dist(|t|, Home(h, |t|, t[j].id), j) < Dist(|t|, g, j)
    {
      RobinHoodDistance(h, t, p, g, j);
    }
  }

  lemma {:induction false} RobinHoodDistance(h: Hash, t: Table, p: nat, g: nat, j: nat)
    requires RobinHood(h, t) && ShiftEnd(h, t, p, g)
    requires j < |t| && j != g && t[j].id != 0 && SameCluster(t, g, j)
    ensures Dist(|t|, Home(h, |t|, t[j].id), j) < Dist(|t|, g, j)
    decreases Dist(|t|, g, j)
  {
    if j != Next(|t|, g) {
      var i := Prev(|t|, j);
      assert Next(|t|, i) == j && Dist(|t|, g, j) == Dist(|t|, g, i) + 1;
      assert Between(|t|, g, i, j);
      forall k | 0 <= k < |t| && Between(|t|, g, k, i) ensures t[k].id != 0 {
        assert Between(|t|, g, k, j);
      }
      RobinHoodDistance(h, t, p, g, i);
    }
  }

  /** Erasing a key right after inserting it gives back the id column and every live entry. */
  lemma InsertThenErase(h: Hash, t: Table, id: OrderId, value: int, i: nat, g: nat, t': Table)
    requires id != 0 && StopsAt(h, t, id, i) && t[i].id == 0
    requires AllReachable(h, t) && HasEmpty(t[i := Entry(id, value)])
    requires ShiftEnd(h, t[i := Entry(id, value)], i, g) && Shifted(t[i := Entry(id, value)], i, g, t')
    ensures g == i && EraseSafe(h, t[i := Entry(id, value)], id)
    ensures |t'| == |t| && forall k :: 0 <= k < |t| ==> t'[k].id == t[k].id && (t[k].id != 0 ==> t'[k] == t[k])
  {
    NothingShifts(h, t, id, value, i, g);
    NobodyNeeds(h, t, id, value, i);
    assert ErasesAt(h, t[i := Entry(id, value)], id, i, i);
  }

  /** What stands behind a slot that was just filled is at home or reachable without it. */
  lemma NothingShifts(h: Hash, t: Table, id: OrderId, value: int, i: nat, g: nat)
    requires i < |t| && id != 0 && t[i].id == 0 && AllReachable(h, t)
    requires ShiftEnd(h, t[i := Entry(id, value)], i, g)
    ensures g == i
  {
    var n, t1 := |t|, t[i := Entry(id, value)];
    var s := Next(n, i);
    if t1[s].id != 0 && s != i {
      assert Reachable(h, t, s);
      assert !Before(n, Home(h, n, t[s].id), i, s);
      assert Home(h, n, t1[s].id) == s;
    }
  }

  lemma NobodyNeeds(h: Hash, t: Table, id: OrderId, value: int, i: nat)
    requires i < |t| && id != 0 && t[i].id == 0 && AllReachable(h, t)
    ensures Unneeded(h, t[i := Entry(id, value)], i)
  {
    var n, t1 := |t|, t[i := Entry(id, value)];
    forall j | 0 <= j < n && j != i && t1[j].id != 0 && SameCluster(t1, i, j)
      ensures Dist(n, Home(h, n, t1[j].id), j) < Dist(n, i, j)
    {
      assert Reachable(h, t, j);
      assert !Before(n, Home(h, n, t[j].id), i, j);
    }
  }

  /** A search stops at one slot only. */
  lemma StopUnique(h: Hash, t: Table, id: OrderId, i: nat, j: nat)
    requires id != 0 && StopsAt(h, t, id, i) && StopsAt(h, t, id, j)
    ensures i == j
  {
    var d := Home(h, |t|, id);
    assert !Before(|t|, d, i, j) && !Before(|t|, d, j, i);
    DistInjective(|t|, d, i, j);
  }

  lemma InsertedAt(h: Hash, t: Table, id: OrderId, value: int, i: nat, t': Table)
    requires id != 0 && InsertedInto(h, t, id, value, t') && StopsAt(h, t, id, i)
    ensures t' == t[i := Entry(id, value)]
  {
    var j: nat :| StopsAt(h, t, id, j) && t[j].id == 0 && t' == t[j := Entry(id, value)];
    StopUnique(h, t, id, i, j);
  }

  /** The coded erase of a table that holds id at p only leaves one table. */
  lemma ErasedOnce(h: Hash, t: Table, id: OrderId, p: nat, g: nat, t': Table, t'': Table)
    requires id != 0 && HasEmpty(t) && ErasesAt(h, t, id, p, g) && Shifted(t, p, g, t')
    requires forall j :: 0 <= j < |t| && t[j].id == id ==> j == p
    requires ErasedFrom(h, t, id, t'')
    ensures t' == t''
  {
    var p', g' :| ErasesAt(h, t, id, p', g') && Shifted(t, p', g', t'');
    ShiftEndUnique(h, t, p, g, g');
    forall k | 0 <= k < |t| ensures t'[k] == t''[k] {
      SourceTarget(|t|, p, g, k);
    }
  }

  lemma OnlyThere(t: Table, m: map<OrderId, int>, places: map<OrderId, nat>, i: nat, j: nat)
    requires Holds(t, m, places) && i < |t| && j < |t| && t[i].id == t[j].id != 0
    ensures i == j
  {
  }

  /** Three ids of which the first and the third share a home slot and the second lives next door. */
  ghost predicate Colliding(h: Hash, cap: nat, a: OrderId, b: OrderId, c: OrderId) {
    && cap >= 4 && a != 0 && b != 0 && c != 0 && a != b && a != c && b != c
    && Home(h, cap, c) == Home(h, cap, a) && Home(h, cap, b) == Next(cap, Home(h, cap, a))
  }

  ghost function EmptyTable(cap: nat): Table {
    seq(cap, _ => Entry(INVALID_ORDER_ID, NULL))
  }

  /** Ids a, b and c from the home slot of a on, in an otherwise empty table. */
  ghost function Cluster(h: Hash, cap: nat, a: OrderId, b: OrderId, c: OrderId, va: int, vb: int, vc: int): Table
    requires cap > 0
  {
    var x := Home(h, cap, a);
    var y := Next(cap, x);
    EmptyTable(cap)[x := Entry(a, va)][y := Entry(b, vb)][Next(cap, y) := Entry(c, vc)]
  }

  /** Three colliding ids inserted in order into an empty table, whatever the hash, the capacity and the values:
      erasing the first the coded way loses the third. */
  lemma CodedEraseLosesAKey(h: Hash, cap: nat, a: OrderId, b: OrderId, c: OrderId, va: int, vb: int, vc: int)
    requires Colliding(h, cap, a, b, c)
    ensures var x := Home(h, cap, a);
      var y := Next(cap, x);
      var z, t0 := Next(cap, y), EmptyTable(cap);
      var t1 := t0[x := Entry(a, va)];
      var t2 := t1[y := Entry(b, vb)];
      var t3 := Cluster(h, cap, a, b, c, va, vb, vc);
      && x != y && y != z && z != x && StopsAt(h, t0, a, x) && StopsAt(h, t1, b, y) && StopsAt(h, t2, c, z)
      && t3 == t2[z := Entry(c, vc)]
      && ErasesAt(h, t3, a, x, x) && HasEmpty(t3)
      && var t4 := t3[x := Entry(0, va)];
         Shifted(t3, x, x, t4) && !Finds(h, t4, c)
  {
    var x := Home(h, cap, a);
    var y := Next(cap, x);
    var z := Next(cap, y);
    var t3 := Cluster(h, cap, a, b, c, va, vb, vc);
    var t4 := t3[x := Entry(0, va)];
    assert t3[Next(cap, z)].id == 0;
    forall j | 0 <= j < cap && t4[j].id == c ensures !Reachable(h, t4, j) {
      assert j == z;
      assert Before(cap, x, x, z) && t4[x].id == 0;
    }
  }

  lemma MovableStart(h: Hash, t: Table, p: nat)
    requires p < |t|
    ensures AllMovable(h, t, p, p)
  {
  }

  /** One more entry shifted back. */
  lemma ShiftStep(h: Hash, t: Table, p: nat, g: nat, cur: Table)
    requires p < |t| && g < |t| && AllMovable(h, t, p, g) && Shifting(t, p, g, cur)
    requires var next := Next(|t|, g); next != p && t[next].id != 0 && Home(h, |t|, t[next].id) != next
    ensures var next := Next(|t|, g); AllMovable(h, t, p, next) && Shifting(t, p, next, cur[g := t[next]])
  {
    var n, next := |t|, Next(|t|, g);
    assert Dist(n, p, next) == Dist(n, p, g) + 1;
    forall k | 0 <= k < n && Source(n, p, next, k) < n ensures cur[g := t[next]][k] == t[Source(n, p, next, k)] {
      SourceTarget(n, p, g, k);
      if k != g && Dist(n, p, k) <= Dist(n, p, g) { DistInjective(n, p, k, g); }
    }
    forall k | 0 <= k < n && 0 < Dist(n, p, k) <= Dist(n, p, next) ensures t[k].id != 0 && Home(h, n, t[k].id) != k {
      if Dist(n, p, k) > Dist(n, p, g) { DistInjective(n, p, k, next); }
    }
  }

  lemma EraseDone(h: Hash, t: Table, m: map<OrderId, int>, places: map<OrderId, nat>, id: OrderId, p: nat, g: nat,
      t': Table)
    requires Holds(t, m, places) && HasEmpty(t)
    requires id != 0 && ShiftEnd(h, t, p, g) && t[p].id == id && Shifted(t, p, g, t')
    ensures HasEmpty(t') && Holds(t', m - {id}, ShiftPlaces(|t|, p, g, places, id))
    ensures ErasedFrom(h, t, id, t')
    ensures AllReachable(h, t) ==> (AllReachable(h, t') <==> EraseSafe(h, t, id))
  {
    ShiftKeepsEntries(t, m, places, p, g, t');
    assert ErasesAt(h, t, id, p, g);
    if AllReachable(h, t) { ShiftReachable(h, t, p, g, t'); }
    if EraseSafe(h, t, id) { SafeHole(h, t, m, places, id, p, g); }
  }

  /** The hole an erase is judged by is the one its shifting leaves. */
  lemma SafeHole(h: Hash, t: Table, m: map<OrderId, int>, places: map<OrderId, nat>, id: OrderId, p: nat, g: nat)
    requires Holds(t, m, places) && HasEmpty(t) && id != 0
    requires EraseSafe(h, t, id) && ErasesAt(h, t, id, p, g)
    ensures Unneeded(h, t, g)
  {
    var p', g' :| ErasesAt(h, t, id, p', g') && Unneeded(h, t, g');
    ShiftEndUnique(h, t, p, g, g');
  }

  // ----- the repaired erase --------------------------------------------------------

  /** A table with a hole whose stale content still marks it occupied: all other entries are m, each is
      reachable, and no entry between the hole and `next` has the hole on its probe path. */
  ghost predicate Hollow(h: Hash, t: Table, hole: nat, next: nat, m: map<OrderId, int>, places: map<OrderId, nat>) {
    && hole < |t| && next < |t| && hole != next && t[hole].id != 0
    && HollowHolds(t, hole, m, places)
    && HollowReachable(h, t, hole)
    && Skipped(h, t, hole, next)
  }

  ghost predicate HollowHolds(t: Table, hole: nat, m: map<OrderId, int>, places: map<OrderId, nat>) {
    && m.Keys == places.Keys
    && (forall j :: 0 <= j < |t| && j != hole && t[j].id != 0 ==> t[j].id in places && places[t[j].id] == j)
    && (forall id :: id in places ==>
          id != 0 && places[id] < |t| && places[id] != hole && t[places[id]] == Entry(id, m[id]))
  }

  ghost predicate HollowReachable(h: Hash, t: Table, hole: nat) {
    forall j {:trigger Reachable(h, t, j)} :: 0 <= j < |t| && j != hole && t[j].id != 0 ==> Reachable(h, t, j)
  }

  ghost predicate Skipped(h: Hash, t: Table, hole: nat, next: nat) {
    forall j {:trigger Between(|t|, hole, j, next)} :: 0 <= j < |t| && Between(|t|, hole, j, next) ==>
      t[j].id != 0 && Dist(|t|, Home(h, |t|, t[j].id), j) < Dist(|t|, hole, j)
  }

  lemma StopIsFound(h: Hash, t: Table, m: map<OrderId, int>, places: map<OrderId, nat>, id: OrderId, i: nat)
    requires id != 0 && StopsAt(h, t, id, i) && Holds(t, m, places)
    ensures t[i].id == id <==> Finds(h, t, id)
    ensures t[i].id == id ==> id in m
    ensures AllReachable(h, t) ==> (t[i].id == id <==> id in m)
  {
    StopDecides(h, t, id, i);
    if AllReachable(h, t) { StopIsKey(h, t, m, places, id, i); }
  }

  lemma InsertedHere(h: Hash, t: Table, id: OrderId, value: int, i: nat)
    requires StopsAt(h, t, id, i) && t[i].id == 0
    ensures InsertedInto(h, t, id, value, t[i := Entry(id, value)])
  {
  }

  lemma SafeErased(h: Hash, t: Table, m: map<OrderId, int>, places: map<OrderId, nat>, id: OrderId, p: nat, g: nat,
      t': Table)
    requires Holds(t, m, places) && HasEmpty(t) && id != 0 && EraseSafe(h, t, id)
    requires ErasesAt(h, t, id, p, g) && (Unneeded(h, t, g) ==> Shifted(t, p, g, t'))
    ensures ErasedFrom(h, t, id, t')
  {
    SafeHole(h, t, m, places, id, p, g);
  }

  lemma StopIsKey(h: Hash, t: Table, m: map<OrderId, int>, places: map<OrderId, nat>, id: OrderId, i: nat)
    requires id != 0 && StopsAt(h, t, id, i) && AllReachable(h, t) && Holds(t, m, places)
    ensures t[i].id == id <==> id in m
  {
    StopDecides(h, t, id, i);
  }

  lemma HollowStart(h: Hash, t: Table, hole: nat, m: map<OrderId, int>, places: map<OrderId, nat>)
    requires AllReachable(h, t) && Holds(t, m, places)
    requires hole < |t| && t[hole].id != 0 && HasEmpty(t)
    ensures Hollow(h, t, hole, Next(|t|, hole), m - {t[hole].id}, places - {t[hole].id})
  {
  }

  lemma MoveIntoHole(h: Hash, t: Table, hole: nat, next: nat, m: map<OrderId, int>, places: map<OrderId, nat>)
    requires Hollow(h, t, hole, next, m, places)
    requires t[next].id != 0 && Next(|t|, next) != next
    requires Dist(|t|, Home(h, |t|, t[next].id), next) >= Dist(|t|, hole, next)
    ensures Hollow(h, t[hole := t[next]], next, Next(|t|, next), m, places[t[next].id := hole])
  {
    assert HollowHolds(t[hole := t[next]], next, m, places[t[next].id := hole]);
    MoveKeepsReachable(h, t, hole, next);
  }

  lemma MoveKeepsReachable(h: Hash, t: Table, hole: nat, next: nat)
    requires hole < |t| && next < |t| && hole != next && t[next].id != 0 && t[hole].id != 0
    requires HollowReachable(h, t, hole)
    requires Dist(|t|, Home(h, |t|, t[next].id), next) >= Dist(|t|, hole, next)
    ensures HollowReachable(h, t[hole := t[next]], next)
  {
    var t' := t[hole := t[next]];
    forall j | 0 <= j < |t| && j != next && t'[j].id != 0 ensures Reachable(h, t', j) {
      if j == hole {
        assert Reachable(h, t, next);
        var d := Home(h, |t|, t[next].id);
        forall k | 0 <= k < |t| && Before(|t|, d, k, hole) ensures t'[k].id != 0 {
          assert Before(|t|, d, k, next);
        }
      } else {
        assert Reachable(h, t, j);
      }
    }
  }

  lemma SkipEntry(h: Hash, t: Table, hole: nat, next: nat, m: map<OrderId, int>, places: map<OrderId, nat>)
    requires Hollow(h, t, hole, next, m, places)
    requires t[next].id != 0 && Next(|t|, next) != hole
    requires Dist(|t|, Home(h, |t|, t[next].id), next) < Dist(|t|, hole, next)
    ensures Hollow(h, t, hole, Next(|t|, next), m, places)
  {
    assert Dist(|t|, hole, Next(|t|, next)) == Dist(|t|, hole, next) + 1;
    forall j | 0 <= j < |t| && Between(|t|, hole, j, Next(|t|, next))
      ensures t[j].id != 0 && Dist(|t|, Home(h, |t|, t[j].id), j) < Dist(|t|, hole, j)
    {
      if j != next { DistInjective(|t|, hole, j, next); assert Between(|t|, hole, j, next); }
    }
  }

  lemma CloseHole(h: Hash, t: Table, hole: nat, next: nat, m: map<OrderId, int>, places: map<OrderId, nat>)
    requires Hollow(h, t, hole, next, m, places) && t[next].id == 0
    ensures var t' := t[hole := Entry(0, t[hole].value)];
      AllReachable(h, t') && Holds(t', m, places) && HasEmpty(t')
  {
    var t' := t[hole := Entry(0, t[hole].value)];
    forall j | 0 <= j < |t| && t'[j].id != 0 ensures Reachable(h, t', j) {
      HoleNotOnPath(h, t, hole, next, j);
    }
    assert t'[hole].id == 0;
  }

  /** With everything up to the next empty slot skipped, no entry's probe path passes the hole. */
  lemma HoleNotOnPath(h: Hash, t: Table, hole: nat, next: nat, j: nat)
    requires hole < |t| && next < |t| && t[next].id == 0 && t[hole].id != 0
    requires HollowReachable(h, t, hole) && Skipped(h, t, hole, next)
    requires j < |t| && j != hole && t[j].id != 0
    ensures var d := Home(h, |t|, t[j].id); Reachable(h, t, j) && Dist(|t|, d, j) <= Dist(|t|, d, hole)
  {
    assert Reachable(h, t, j);
    var d := Home(h, |t|, t[j].id);
    if Dist(|t|, d, hole) < Dist(|t|, d, j) {
      OnPathMeansCluster(h, t, hole, j);
      assert !Between(|t|, hole, next, j);
      DistInjective(|t|, hole, j, next);
      assert Between(|t|, hole, j, next);
    }
  }

  lemma InsertKeeps(h: Hash, t: Table, m: map<OrderId, int>, places: map<OrderId, nat>, id: OrderId, value: int, i: nat)
    requires Holds(t, m, places)
    requires id != 0 && id !in m && StopsAt(h, t, id, i) && t[i].id == 0
    ensures var t' := t[i := Entry(id, value)];
      Holds(t', m[id := value], places[id := i]) && (AllReachable(h, t) ==> AllReachable(h, t'))
  {
    var t' := t[i := Entry(id, value)];
    if AllReachable(h, t) {
      forall j | 0 <= j < |t'| && t'[j].id != 0 ensures Reachable(h, t', j) {
        if j != i { assert Reachable(h, t, j); }
      }
    }
  }

  /** Fewer entries than slots leaves an empty slot. */
  lemma RoomLeft(t: Table, m: map<OrderId, int>, places: map<OrderId, nat>)
    requires Holds(t, m, places) && |m| < |t|
    ensures HasEmpty(t)
  {
    if !HasEmpty(t) {
      FullCount(t, m, places, |t|);
      var ids := set j | 0 <= j < |t| :: t[j].id;
      assert ids <= m.Keys;
      SubsetCard(ids, m.Keys);
    }
  }

  lemma {:induction false} FullCount(t: Table, m: map<OrderId, int>, places: map<OrderId, nat>, n: nat)
    requires n <= |t| && Holds(t, m, places)
    requires forall j :: 0 <= j < n ==> t[j].id != 0
    ensures |set j | 0 <= j < n :: t[j].id| == n
  {
    if n > 0 {
      FullCount(t, m, places, n - 1);
      assert (set j | 0 <= j < n :: t[j].id) == (set j | 0 <= j < n - 1 :: t[j].id) + {t[n - 1].id};
    }
  }

  // ----- where the two erases agree ----------------------------------------------------

  /** The skipping walk seen beside the coded one, both begun on `was` at p: until the coded one stops they are
      step for step the same; once it has stopped, with its hole at g that nobody needs, the other moves nothing. */
  ghost predicate Beside(h: Hash, was: Table, p: nat, hole: nat, next: nat, t: Table, stopped: bool, g: nat) {
    && |t| == |was| && p < |was| && hole < |was| && next < |was| && g < |was|
    && (!stopped ==> next == Next(|was|, hole) && AllMovable(h, was, p, hole) && Shifting(was, p, hole, t))
    && (stopped ==> ShiftEnd(h, was, p, g))
    && (stopped && Unneeded(h, was, g) ==> hole == g && Shifting(was, p, g, t) && SameCluster(was, g, next))
  }

  lemma BesideStart(h: Hash, was: Table, p: nat)
    requires p < |was|
    ensures Beside(h, was, p, p, Next(|was|, p), was, false, p)
  {
    MovableStart(h, was, p);
  }

  /** An entry is moved into the hole: the coded walk moves it too, or somebody needed its hole. */
  lemma BesideMoves(h: Hash, was: Table, p: nat, hole: nat, next: nat, t: Table, stopped: bool, g: nat)
    requires Beside(h, was, p, hole, next, t, stopped, g) && t[next].id != 0
    requires Dist(|was|, p, hole) < Dist(|was|, p, next)
    requires Dist(|was|, Home(h, |was|, t[next].id), next) >= Dist(|was|, hole, next)
    ensures Beside(h, was, p, next, Next(|was|, next), t[hole := t[next]], stopped, g)
  {
    var n := |was|;
    if !stopped {
      SourceTarget(n, p, hole, next);
      assert t[next] == was[next];
      ShiftStep(h, was, p, hole, t);
    } else if Unneeded(h, was, g) {
      StoppedSkips(h, was, p, hole, next, t, g);
    }
  }

  lemma StoppedSkips(h: Hash, was: Table, p: nat, hole: nat, next: nat, t: Table, g: nat)
    requires Beside(h, was, p, hole, next, t, true, g) && t[next].id != 0 && Unneeded(h, was, g)
    requires Dist(|was|, p, hole) < Dist(|was|, p, next)
    ensures Dist(|was|, Home(h, |was|, t[next].id), next) < Dist(|was|, hole, next)
  {
    SourceTarget(|was|, p, g, next);
    assert t[next] == was[next];
  }

  /** An entry is skipped: the coded walk has stopped here or earlier. */
  lemma BesideSkips(h: Hash, was: Table, p: nat, hole: nat, next: nat, t: Table, stopped: bool, g: nat)
    requires Beside(h, was, p, hole, next, t, stopped, g) && t[next].id != 0
    requires Dist(|was|, p, hole) < Dist(|was|, p, next) && Next(|was|, next) != p
    requires Dist(|was|, Home(h, |was|, t[next].id), next) < Dist(|was|, hole, next)
    ensures Beside(h, was, p, hole, Next(|was|, next), t, true, if stopped then g else hole)
  {
    var n, g' := |was|, if stopped then g else hole;
    if !stopped || Unneeded(h, was, g) {
      SourceTarget(n, p, g', next);
      assert t[next] == was[next];
      assert Dist(n, g', Next(n, next)) == Dist(n, g', next) + 1;
      forall k | 0 <= k < n && Between(n, g', k, Next(n, next)) ensures was[k].id != 0 {
        if k != next { DistInjective(n, g', k, next); assert Between(n, g', k, next); }
      }
    }
  }

  /** The walk ends at an empty slot: the coded one has stopped by then, with its hole at the same place
      unless somebody needed it. */
  lemma BesideEnds(h: Hash, was: Table, p: nat, hole: nat, next: nat, t: Table, stopped: bool, g: nat, id: OrderId)
    requires Beside(h, was, p, hole, next, t, stopped, g) && t[next].id == 0
    requires Dist(|was|, p, hole) < Dist(|was|, p, next) && was[p].id == id
    ensures var g' := if stopped then g else hole;
      ErasesAt(h, was, id, p, g') && (Unneeded(h, was, g') ==> Shifted(was, p, g', t[hole := Entry(0, t[hole].value)]))
  {
    var n, g', t' := |was|, if stopped then g else hole, t[hole := Entry(0, t[hole].value)];
    if !stopped {
      SourceTarget(n, p, hole, next);
      assert t[next] == was[next];
    }
    if Unneeded(h, was, g') {
      SourceTarget(n, p, g', g');
      assert Source(n, p, g', g') == g' && t[g'] == was[g'];
    }
  }

  // ----- runs of insertions and erasures ---------------------------------------------

  /** What happens to the set of ids in a table. */
  datatype Edit = Came(id: OrderId) | Gone(id: OrderId)

  /** Whatever values come with the ids, every coded erase along these edits is safe. */
  ghost predicate SafeEdits(h: Hash, t: Table, edits: seq<Edit>)
    decreases |edits|
  {
    edits == [] ||
    match edits[0]
    case Came(id) => forall v, t' :: InsertedInto(h, t, id, v, t') ==> SafeEdits(h, t', edits[1..])
    case Gone(id) => EraseSafe(h, t, id) && forall t' :: ErasedFrom(h, t, id, t') ==> SafeEdits(h, t', edits[1..])
  }

  lemma SafeCame(h: Hash, t: Table, id: OrderId, v: int, t': Table, more: seq<Edit>)
    requires SafeEdits(h, t, [Came(id)] + more) && InsertedInto(h, t, id, v, t')
    ensures SafeEdits(h, t', more)
  {
    assert ([Came(id)] + more)[1..] == more;
  }

  lemma SafeGone(h: Hash, t: Table, id: OrderId, more: seq<Edit>)
    requires SafeEdits(h, t, [Gone(id)] + more)
    ensures EraseSafe(h, t, id)
    ensures forall t' :: ErasedFrom(h, t, id, t') ==> SafeEdits(h, t', more)
  {
    assert ([Gone(id)] + more)[1..] == more;
  }

  // ----- exactly when the coded erase loses nothing -----------------------------------

  ghost predicate EditedTo(h: Hash, t: Table, e: Edit, t': Table) {
    match e
    case Came(id) => exists v :: InsertedInto(h, t, id, v, t')
    case Gone(id) => ErasedFrom(h, t, id, t')
  }

  /** At every moment of the edits, made with the coded erase, a search finds every entry. */
  ghost predicate AlwaysFindable(h: Hash, t: Table, edits: seq<Edit>)
    decreases |edits|
  {
    && AllReachable(h, t)
    && (edits == [] || forall t' :: EditedTo(h, t, edits[0], t') ==> AlwaysFindable(h, t', edits[1..]))
  }

  /** Edits of a table of `cap` slots holding these ids: fresh real ids come while there is room, present ones go. */
  predicate Legal(ids: set<OrderId>, edits: seq<Edit>, cap: nat)
    decreases |edits|
  {
    edits == [] ||
    match edits[0]
    case Came(id) => id != 0 && id !in ids && |ids| + 1 < cap && Legal(ids + {id}, edits[1..], cap)
    case Gone(id) => id in ids && Legal(ids - {id}, edits[1..], cap)
  }

  /** The coded shifting stops somewhere. */
  lemma {:induction false} StopExists(h: Hash, t: Table, p: nat, g: nat, e: nat) returns (g': nat)
    requires p < |t| && g < |t| && e < |t| && t[e].id == 0
    requires AllMovable(h, t, p, g) && Dist(|t|, p, g) < Dist(|t|, p, e)
    ensures ShiftEnd(h, t, p, g')
    decreases Dist(|t|, p, e) - Dist(|t|, p, g)
  {
    var next := Next(|t|, g);
    if t[next].id == 0 || Home(h, |t|, t[next].id) == next {
      g' := g;
    } else {
      forall k | 0 <= k < |t| && 0 < Dist(|t|, p, k) <= Dist(|t|, p, next)
        ensures t[k].id != 0 && Home(h, |t|, t[k].id) != k
      {
        if Dist(|t|, p, k) > Dist(|t|, p, g) { DistInjective(|t|, p, k, next); }
      }
      g' := StopExists(h, t, p, next, e);
    }
  }

  lemma EraseExists(h: Hash, t: Table, id: OrderId, p: nat) returns (t': Table)
    requires HasEmpty(t) && p < |t| && t[p].id == id && id != 0
    ensures ErasedFrom(h, t, id, t')
  {
    var e: nat :| e < |t| && t[e].id == 0;
    DistInjective(|t|, p, p, e);
    MovableStart(h, t, p);
    var g := StopExists(h, t, p, p, e);
    forall k | 0 <= k < |t| ensures Source(|t|, p, g, k) < |t| { SourceTarget(|t|, p, g, k); }
    t' := seq(|t|, k requires 0 <= k < |t| => if k == g then Entry(0, t[g].value) else t[Source(|t|, p, g, k)]);
    assert ErasesAt(h, t, id, p, g) && Shifted(t, p, g, t');
  }

  lemma ErasedHolds(h: Hash, t: Table, m: map<OrderId, int>, places: map<OrderId, nat>, id: OrderId, t': Table)
    returns (places': map<OrderId, nat>)
    requires Holds(t, m, places) && HasEmpty(t) && AllReachable(h, t) && id in m && ErasedFrom(h, t, id, t')
    ensures |t'| == |t| && HasEmpty(t') && Holds(t', m - {id}, places')
    ensures AllReachable(h, t') <==> EraseSafe(h, t, id)
  {
    var p, g :| ErasesAt(h, t, id, p, g) && Shifted(t, p, g, t');
    hide ShiftEnd, EraseSafe, AllReachable, ErasedFrom;
    EraseDone(h, t, m, places, id, p, g, t');
    places' := ShiftPlaces(|t|, p, g, places, id);
  }

  lemma InsertedHolds(h: Hash, t: Table, m: map<OrderId, int>, places: map<OrderId, nat>, id: OrderId, v: int,
                      t': Table)
    returns (places': map<OrderId, nat>)
    requires Holds(t, m, places) && HasEmpty(t) && AllReachable(h, t) && id != 0 && id !in m && |m| + 1 < |t|
    requires InsertedInto(h, t, id, v, t')
    ensures |t'| == |t| && HasEmpty(t') && Holds(t', m[id := v], places') && AllReachable(h, t')
  {
    var i: nat :| StopsAt(h, t, id, i) && t[i].id == 0 && t' == t[i := Entry(id, v)];
    hide StopsAt, HasEmpty;
    InsertKeeps(h, t, m, places, id, v, i);
    places' := places[id := i];
    RoomLeft(t', m[id := v], places');
  }

  /** Made with the coded erase, edits keep every entry findable at every moment if and only if every erase
      along them is safe. */
  lemma {:induction false} SafeExactly(h: Hash, t: Table, m: map<OrderId, int>, places: map<OrderId, nat>,
                                       edits: seq<Edit>)
    requires Holds(t, m, places) && HasEmpty(t) && AllReachable(h, t) && Legal(m.Keys, edits, |t|)
    ensures SafeEdits(h, t, edits) <==> AlwaysFindable(h, t, edits)
    decreases |edits|
  {
    hide Holds, HasEmpty, AllReachable, ErasedFrom, InsertedInto, EraseSafe;
    if edits != [] {
      match edits[0]
      case Came(id) =>
        forall v, t' | InsertedInto(h, t, id, v, t')
          ensures SafeEdits(h, t', edits[1..]) <==> AlwaysFindable(h, t', edits[1..])
        {
          var places' := InsertedHolds(h, t, m, places, id, v, t');
          assert m[id := v].Keys == m.Keys + {id};
          SafeExactly(h, t', m[id := v], places', edits[1..]);
        }
      case Gone(id) =>
        forall t' | ErasedFrom(h, t, id, t')
          ensures AllReachable(h, t') <==> EraseSafe(h, t, id)
          ensures EraseSafe(h, t, id) ==> (SafeEdits(h, t', edits[1..]) <==> AlwaysFindable(h, t', edits[1..]))
        {
          var places' := ErasedHolds(h, t, m, places, id, t');
          if EraseSafe(h, t, id) {
            assert (m - {id}).Keys == m.Keys - {id};
            SafeExactly(h, t', m - {id}, places', edits[1..]);
          }
        }
        if !EraseSafe(h, t, id) {
          PlaceOf(t, m, places, id);
          var t' := EraseExists(h, t, id, places[id]);
          assert EditedTo(h, t, edits[0], t') && !AlwaysFindable(h, t', edits[1..]);
        }
    }
  }

  lemma PlaceOf(t: Table, m: map<OrderId, int>, places: map<OrderId, nat>, id: OrderId)
    requires Holds(t, m, places) && id in m
    ensures id in places && places[id] < |t| && t[places[id]].id == id && id != 0
  {
  }

  // ----- a run that is safe on sight -----------------------------------------------------

  /** Every entry sits in its home slot. */
  ghost predicate AllHome(h: Hash, t: Table) {
    forall j :: 0 <= j < |t| && t[j].id != 0 ==> Home(h, |t|, t[j].id) == j
  }

  /** At every moment of the edits the ids present have pairwise distinct home slots. */
  ghost predicate Spread(h: Hash, cap: nat, ids: set<OrderId>, edits: seq<Edit>)
    requires cap > 0
    decreases |edits|
  {
    edits == [] ||
    match edits[0]
    case Came(id) =>
      (forall x :: x in ids ==> Home(h, cap, x) != Home(h, cap, id)) && Spread(h, cap, ids + {id}, edits[1..])
    case Gone(id) => Spread(h, cap, ids - {id}, edits[1..])
  }

  lemma HomeInsert(h: Hash, t: Table, m: map<OrderId, int>, places: map<OrderId, nat>, id: OrderId, v: int, t': Table)
    requires |t| > 0 && Holds(t, m, places) && AllHome(h, t) && InsertedInto(h, t, id, v, t') && id != 0
    requires forall x :: x in m ==> Home(h, |t|, x) != Home(h, |t|, id)
    ensures |t'| == |t| && AllHome(h, t')
  {
    var d := Home(h, |t|, id);
    assert t[d].id == 0;
    assert StopsAt(h, t, id, d);
    InsertedAt(h, t, id, v, d, t');
  }

  lemma HomeErase(h: Hash, t: Table, m: map<OrderId, int>, places: map<OrderId, nat>, id: OrderId, t': Table)
    requires Holds(t, m, places) && HasEmpty(t) && AllHome(h, t) && id in m
    ensures EraseSafe(h, t, id)
    ensures ErasedFrom(h, t, id, t') ==> |t'| == |t| && AllHome(h, t')
  {
    var p := places[id];
    assert AllMovable(h, t, p, p);
    assert ErasesAt(h, t, id, p, p) && Unneeded(h, t, p);
    if ErasedFrom(h, t, id, t') {
      var t'' := t[p := Entry(0, t[p].value)];
      assert Shifted(t, p, p, t'');
      ErasedOnce(h, t, id, p, p, t'', t');
    }
  }

  lemma HomeReachable(h: Hash, t: Table)
    requires AllHome(h, t)
    ensures AllReachable(h, t)
  {
  }

  /** Edits under which no two ids present ever share a home slot are safe. */
  lemma {:induction false} SpreadIsSafe(h: Hash, t: Table, m: map<OrderId, int>, places: map<OrderId, nat>,
                                        edits: seq<Edit>)
    requires Holds(t, m, places) && HasEmpty(t) && AllHome(h, t)
    requires Legal(m.Keys, edits, |t|) && Spread(h, |t|, m.Keys, edits)
    ensures SafeEdits(h, t, edits)
    decreases |edits|
  {
    hide Holds, HasEmpty, AllReachable, AllHome, ErasedFrom, InsertedInto, EraseSafe;
    if edits != [] {
      HomeReachable(h, t);
      match edits[0]
      case Came(id) =>
        forall v, t' | InsertedInto(h, t, id, v, t') ensures SafeEdits(h, t', edits[1..]) {
          var places' := InsertedHolds(h, t, m, places, id, v, t');
          HomeInsert(h, t, m, places, id, v, t');
          assert m[id := v].Keys == m.Keys + {id};
          SpreadIsSafe(h, t', m[id := v], places', edits[1..]);
        }
      case Gone(id) =>
        HomeErase(h, t, m, places, id, t);
        forall t' | ErasedFrom(h, t, id, t') ensures SafeEdits(h, t', edits[1..]) {
          var places' := ErasedHolds(h, t, m, places, id, t');
          HomeErase(h, t, m, places, id, t');
          assert (m - {id}).Keys == m.Keys - {id};
          SpreadIsSafe(h, t', m - {id}, places', edits[1..]);
        }
    }
  }

  // ----- runs of a finite map ---------------------------------------------------------

  datatype MapOp = MapInsert(id: OrderId, value: int) | MapFind(id: OrderId) | MapErase(id: OrderId)

  datatype MapReply = Did(ok: bool) | Found(v: int)

  function MapStep(m: map<OrderId, int>, op: MapOp): (map<OrderId, int>, MapReply) {
    match op
    case MapInsert(id, v) => if id in m then (m, Did(false)) else (m[id := v], Did(true))
    case MapFind(id) => (m, Found(if id in m then m[id] else NULL))
    case MapErase(id) => (m - {id}, Did(id in m))
  }

  function MapRun(m: map<OrderId, int>, ops: seq<MapOp>): (map<OrderId, int>, seq<MapReply>) {
    if ops == [] then (m, [])
    else
      var (m', replies) := MapRun(m, ops[..|ops| - 1]);
      var (m'', reply) := MapStep(m', ops[|ops| - 1]);
      (m'', replies + [reply])
  }

  /** The edits a run makes to a table that answers as the map m does. */
  function StepEdits(m: map<OrderId, int>, op: MapOp): seq<Edit> {
    match op
    case MapInsert(id, _) => if id in m then [] else [Came(id)]
    case MapFind(_) => []
    case MapErase(id) => if id in m then [Gone(id)] else []
  }

  function MapEdits(m: map<OrderId, int>, ops: seq<MapOp>): seq<Edit>
    decreases |ops|
  {
    if ops == [] then [] else StepEdits(m, ops[0]) + MapEdits(MapStep(m, ops[0]).0, ops[1..])
  }

  class OrderIdMap {
    const slots: array<Entry>
    const hash: Hash
    const backshift: Backshift
    var size: nat
    ghost var entries: map<OrderId, int>
    ghost var places: map<OrderId, nat>

    /** Everything but reachability. */
    ghost predicate Sound()
      reads this, slots
    {
      && slots.Length > 0
      && HasEmpty(slots[..])
      && Holds(slots[..], entries, places)
      && size == |entries|
    }

    ghost predicate Valid()
      reads this, slots
    {
      Sound() && AllReachable(hash, slots[..])
    }

    /** Every stored entry is in place; it is also findable if the intended erase is the one in use. */
    ghost predicate Usable()
      reads this, slots
    {
      Sound() && (backshift.AsIntended? ==> AllReachable(hash, slots[..]))
    }

    ghost predicate Findable(id: OrderId)
      reads slots
    {
      Finds(hash, slots[..], id)
    }

    /** These edits can be made without losing anything: always with the intended erase, and as long as every
        erase is safe with the coded one. */
    ghost predicate Safe(edits: seq<Edit>)
      reads slots
    {
      backshift.AsIntended? || SafeEdits(hash, slots[..], edits)
    }

    ghost predicate SafeFrom(first: Edit, more: seq<Edit>)
      reads slots
    {
      Safe([first] + more)
    }

    constructor (initialCapacity: nat, hash: Hash, backshift: Backshift)
      requires initialCapacity <= WORD / 2
      ensures Valid() && fresh(slots) && this.hash == hash && this.backshift == backshift
      ensures entries == map[] && slots.Length == RoundUpPow2(initialCapacity)
      ensures forall j :: 0 <= j < slots.Length ==> slots[j] == Entry(INVALID_ORDER_ID, NULL)
    {
      RoundUpIsLeast(initialCapacity);
      slots := new Entry[RoundUpPow2(initialCapacity)](_ => Entry(INVALID_ORDER_ID, NULL));
      this.hash, this.backshift := hash, backshift;
      size, entries, places := 0, map[], map[];
      new;
      assert slots[..][0].id == 0;
    }

    /** The probe loop shared by insert, find and erase. */
    method Search(id: OrderId) returns (i: nat)
      requires slots.Length > 0 && HasEmpty(slots[..])
      requires id != INVALID_ORDER_ID
      ensures StopsAt(hash, slots[..], id, i)
    {
      ghost var t := slots[..];
      ghost var home := Home(hash, slots.Length, id);
      ghost var e :| 0 <= e < |t| && t[e].id == 0;
      i := Home(hash, slots.Length, id);
      while slots[i].id != INVALID_ORDER_ID && slots[i].id != id
        invariant 0 <= i < slots.Length
        invariant Dist(slots.Length, home, i) <= Dist(slots.Length, home, e)
        invariant PassedUpTo(hash, t, id, i)
        decreases Dist(slots.Length, home, e) - Dist(slots.Length, home, i)
      {
        assert slots[i] == t[i];
        forall k | 0 <= k < |t| && Before(|t|, home, k, Next(|t|, i)) ensures t[k].id != 0 && t[k].id != id {
          if k != i { DistInjective(|t|, home, k, i); assert Before(|t|, home, k, i); }
        }
        i := Next(slots.Length, i);
      }
    }

    /** Returns the stored value, or NULL. */
    method Find(id: OrderId) returns (v: int)
      requires Sound()
      requires id != INVALID_ORDER_ID
      ensures Finds(hash, slots[..], id) ==> id in entries && v == entries[id]
      ensures !Finds(hash, slots[..], id) ==> v == NULL
      ensures Valid() ==> (Finds(hash, slots[..], id) <==> id in entries)
    {
      var i := Search(id);
      StopDecides(hash, slots[..], id, i);
      assert slots[..][i] == slots[i];
      v := if slots[i].id == id then slots[i].value else NULL;
    }

    /** A fresh id goes to the slot where its search stops. */
    method Insert(id: OrderId, value: int, ghost more: seq<Edit> := []) returns (ok: bool)
      requires Usable()
      requires id != INVALID_ORDER_ID && (id in entries ==> Valid())
      requires id !in entries ==> |entries| + 1 < slots.Length
      modifies this`size, this`entries, this`places, slots
      ensures Usable() && (old(Valid()) ==> Valid())
      ensures ok == (id !in old(entries))
      ensures entries == if ok then old(entries)[id := value] else old(entries)
      ensures ok ==> InsertedInto(hash, old(slots[..]), id, value, slots[..])
      ensures !ok ==> slots[..] == old(slots[..])
      ensures ok && old(SafeFrom(Came(id), more)) ==> Safe(more)
    {
      hide Finds, SafeEdits, InsertedInto, AllReachable, Holds, PassedUpTo;
      var i := Search(id);
      ghost var t := slots[..];
      StopIsFound(hash, t, entries, places, id, i);
      if slots[i].id == id { return false; }
      slots[i] := Entry(id, value);
      size := size + 1;
      InsertKeeps(hash, t, entries, places, id, value, i);
      entries := entries[id := value];
      places := places[id := i];
      assert slots[..] == t[i := Entry(id, value)];
      RoomLeft(slots[..], entries, places);
      InsertedHere(hash, t, id, value, i);
      if SafeEdits(hash, t, [Came(id)] + more) { SafeCame(hash, t, id, value, slots[..], more); }
      ok := true;
    }

    /** erase exactly as coded: shift back until an empty slot or an entry in its home slot. */
    method Erase(id: OrderId) returns (ok: bool)
      requires Sound()
      requires id != INVALID_ORDER_ID
      modifies this`size, this`entries, this`places, slots
      ensures Sound()
      ensures ok == old(Findable(id))
      ensures ok ==> id in old(entries)
      ensures old(Valid()) && id in old(entries) ==> ok
      ensures entries == if ok then old(entries) - {id} else old(entries)
      ensures ok ==> ErasedFrom(hash, old(slots[..]), id, slots[..])
      ensures !ok ==> slots[..] == old(slots[..])
      ensures old(Valid()) ==> (Valid() <==> (ok ==> EraseSafe(hash, old(slots[..]), id)))
    {
      hide Reachable, AllReachable, Home, ShiftEnd, Shifted, Unneeded, ShiftPlaces, EraseSafe, ErasedFrom, HasEmpty,
        Finds, Holds;
      ghost var t := slots[..];
      var i := Search(id);
      StopIsFound(hash, t, entries, places, id, i);
      assert slots[i] == t[i];
      if slots[i].id != id { return false; }
      ghost var hole := ShiftAndClear(i);
      assert |entries - {id}| == |entries| - 1 by { assert id in entries; }
      size := size - 1;
      EraseDone(hash, t, entries, places, id, i, hole, slots[..]);
      entries := entries - {id};
      places := ShiftPlaces(slots.Length, i, hole, places, id);
      ok := true;
    }

    method ShiftAndClear(i: nat) returns (ghost g: nat)
      requires i < slots.Length && slots[i].id != INVALID_ORDER_ID && HasEmpty(slots[..])
      modifies slots
      ensures ShiftEnd(hash, old(slots[..]), i, g)
      ensures Shifted(old(slots[..]), i, g, slots[..])
    {
      var hole := ShiftBack(i);
      g := hole;
      ghost var cur := slots[..];
      slots[hole] := slots[hole].(id := INVALID_ORDER_ID);
      SourceTarget(slots.Length, i, hole, hole);
      assert slots[..] == cur[hole := Entry(0, cur[hole].value)];
    }

    /** The shifting loop of erase; returns where the hole ends up. */
    method ShiftBack(i: nat) returns (hole: nat)
      requires i < slots.Length && slots[i].id != INVALID_ORDER_ID && HasEmpty(slots[..])
      modifies slots
      ensures ShiftEnd(hash, old(slots[..]), i, hole)
      ensures Shifting(old(slots[..]), i, hole, slots[..])
    {
      hide AllMovable, Home;
      ghost var t, n := slots[..], slots.Length;
      ghost var e :| 0 <= e < n && t[e].id == 0;
      hole := i;
      MovableStart(hash, t, i);
      while true
        invariant 0 <= hole < n
        invariant Dist(n, i, hole) < Dist(n, i, e)
        invariant AllMovable(hash, t, i, hole)
        invariant Shifting(t, i, hole, slots[..])
        decreases Dist(n, i, e) - Dist(n, i, hole)
      {
        var next := Next(slots.Length, hole);
        ghost var cur := slots[..];
        SourceTarget(n, i, hole, next);
        assert slots[next] == cur[next] == t[next];
        if slots[next].id == INVALID_ORDER_ID { break; }
        var ideal := Home(hash, slots.Length, slots[next].id);
        if Dist(slots.Length, ideal, next) == 0 { break; }
        slots[hole] := slots[next];
        ShiftStep(hash, t, i, hole, cur);
        assert slots[..] == cur[hole := t[next]];
        hole := next;
      }
    }

    /** erase as its comment intends: an entry that may not move is skipped, the hole is kept, and the
        walk goes on to the end of the cluster. Where the coded erase is safe it leaves the same table. */
    method EraseRepaired(id: OrderId) returns (ok: bool)
      requires Valid()
      requires id != INVALID_ORDER_ID
      modifies this`size, this`entries, this`places, slots
      ensures Valid()
      ensures ok == (id in old(entries)) == old(Findable(id))
      ensures entries == old(entries) - {id}
      ensures !ok ==> slots[..] == old(slots[..])
      ensures ok && EraseSafe(hash, old(slots[..]), id) ==> ErasedFrom(hash, old(slots[..]), id, slots[..])
    {
      hide Reachable, AllReachable, Holds, HasEmpty, Finds, PassedUpTo, Home, Hollow, HollowHolds, HollowReachable,
        Skipped, Next, EraseSafe, ErasedFrom, Beside;
      ghost var t := slots[..];
      var i := Search(id);
      StopIsKey(hash, t, entries, places, id, i);
      StopIsFound(hash, t, entries, places, id, i);
      assert slots[i] == t[i];
      if slots[i].id != id { return false; }
      HollowStart(hash, t, i, entries, places);
      assert |entries - {id}| == |entries| - 1 by { assert id in entries; }
      size := size - 1;
      entries := entries - {id};
      ghost var before := places;
      places := places - {id};
      ghost var g := SkipShiftAndClear(i, id);
      if EraseSafe(hash, t, id) { SafeErased(hash, t, old(entries), before, id, i, g, slots[..]); }
      ok := true;
    }

    method SkipShiftAndClear(i: nat, ghost id: OrderId) returns (ghost g: nat)
      requires i < slots.Length && HasEmpty(slots[..]) && slots[i].id == id
      requires Hollow(hash, slots[..], i, Next(slots.Length, i), entries, places)
      modifies slots, this`places
      ensures AllReachable(hash, slots[..]) && Holds(slots[..], entries, places) && HasEmpty(slots[..])
      ensures ErasesAt(hash, old(slots[..]), id, i, g)
      ensures Unneeded(hash, old(slots[..]), g) ==> Shifted(old(slots[..]), i, g, slots[..])
    {
      hide AllReachable, Holds, HasEmpty, HollowHolds, HollowReachable, Skipped, ErasesAt, Unneeded, Shifted, Beside;
      ghost var was := slots[..];
      var hole, next;
      ghost var stopped, at;
      hole, next, stopped, at := SkippingShift(i);
      ghost var t := slots[..];
      assert t[next] == slots[next];
      CloseHole(hash, t, hole, next, entries, places);
      BesideEnds(hash, was, i, hole, next, t, stopped, at, id);
      g := if stopped then at else hole;
      slots[hole] := slots[hole].(id := INVALID_ORDER_ID);
      assert slots[..] == t[hole := Entry(0, t[hole].value)];
    }

    /** The repaired shifting loop. */
    method SkippingShift(i: nat) returns (hole: nat, next: nat, ghost stopped: bool, ghost g: nat)
      requires i < slots.Length && HasEmpty(slots[..])
      requires Hollow(hash, slots[..], i, Next(slots.Length, i), entries, places)
      modifies slots, this`places
      ensures Hollow(hash, slots[..], hole, next, entries, places) && slots[next].id == INVALID_ORDER_ID
      ensures Beside(hash, old(slots[..]), i, hole, next, slots[..], stopped, g)
      ensures Dist(slots.Length, i, hole) < Dist(slots.Length, i, next)
    {
      hide HollowHolds, HollowReachable, Skipped, Home, Beside;
      ghost var n, was := slots.Length, slots[..];
      ghost var e :| 0 <= e < n && slots[..][e].id == 0;
      hole, next := i, Next(slots.Length, i);
      stopped, g := false, i;
      BesideStart(hash, was, i);
      while slots[next].id != INVALID_ORDER_ID
        invariant 0 <= hole < n && 0 <= next < n
        invariant Dist(n, i, hole) < Dist(n, i, next) <= Dist(n, i, e)
        invariant slots[e].id == 0
        invariant Hollow(hash, slots[..], hole, next, entries, places)
        invariant Beside(hash, was, i, hole, next, slots[..], stopped, g)
        decreases Dist(n, i, e) - Dist(n, i, next)
      {
        var ideal := Home(hash, slots.Length, slots[next].id);
        ghost var t := slots[..];
        assert next != e && t[next] == slots[next];
        if Dist(slots.Length, ideal, next) >= Dist(slots.Length, hole, next) {
          MoveIntoHole(hash, t, hole, next, entries, places);
          BesideMoves(hash, was, i, hole, next, t, stopped, g);
          places := places[slots[next].id := hole];
          slots[hole] := slots[next];
          assert slots[..] == t[hole := t[next]];
          hole := next;
        } else {
          SkipEntry(hash, t, hole, next, entries, places);
          BesideSkips(hash, was, i, hole, next, t, stopped, g);
          stopped, g := true, if stopped then g else hole;
        }
        next := Next(slots.Length, next);
      }
    }

    /** The erase of this table, as coded or as intended. */
    method Remove(id: OrderId, ghost more: seq<Edit> := []) returns (ok: bool)
      requires Usable()
      requires id != INVALID_ORDER_ID
      modifies this`size, this`entries, this`places, slots
      ensures Usable()
      ensures ok == old(Findable(id))
      ensures ok ==> id in old(entries)
      ensures old(Valid()) && id in old(entries) ==> ok
      ensures entries == if ok then old(entries) - {id} else old(entries)
      ensures !ok ==> slots[..] == old(slots[..])
      ensures ok && backshift.AsCoded? ==> ErasedFrom(hash, old(slots[..]), id, slots[..])
      ensures ok && backshift.AsCoded? && old(Valid()) ==> (Valid() <==> EraseSafe(hash, old(slots[..]), id))
      ensures ok && old(Valid() && SafeFrom(Gone(id), more)) ==> Valid() && Safe(more)
    {
      hide Reachable, AllReachable, Holds, HasEmpty, Finds, EraseSafe, ErasedFrom, SafeEdits;
      ghost var t := slots[..];
      if SafeEdits(hash, t, [Gone(id)] + more) { SafeGone(hash, t, id, more); }
      if backshift.AsCoded? {
        ok := Erase(id);
      } else {
        ok := EraseRepaired(id);
      }
    }

    method Perform(op: MapOp, ghost more: seq<Edit>) returns (reply: MapReply)
      requires Valid() && op.id != INVALID_ORDER_ID
      requires |MapStep(entries, op).0| < slots.Length
      requires Safe(StepEdits(entries, op) + more)
      modifies this`size, this`entries, this`places, slots
      ensures Valid() && Safe(more)
      ensures (entries, reply) == MapStep(old(entries), op)
    {
      hide AllReachable, Holds, HasEmpty, Finds, SafeEdits;
      assert [] + more == more;
      match op
      case MapInsert(id, v) =>
        var ok := Insert(id, v, more);
        reply := Did(ok);
      case MapFind(id) =>
        var v := Find(id);
        reply := Found(v);
      case MapErase(id) =>
        var ok := Remove(id, more);
        assert id !in old(entries) ==> old(entries) - {id} == old(entries);
        reply := Did(ok);
    }

    /** A run of the three operations answers as a finite map would, whatever the hash function: every run with
        the intended erase, every run whose erases are all safe with the coded one. */
    method PerformAll(ops: seq<MapOp>) returns (replies: seq<MapReply>)
      requires Valid()
      requires forall i :: 0 <= i < |ops| ==> ops[i].id != INVALID_ORDER_ID
      requires forall i :: 0 <= i <= |ops| ==> |MapRun(entries, ops[..i]).0| < slots.Length
      requires Safe(MapEdits(entries, ops))
      modifies this`size, this`entries, this`places, slots
      ensures Valid()
      ensures (entries, replies) == MapRun(old(entries), ops)
    {
      hide Sound, AllReachable, SafeEdits, MapStep;
      replies := [];
      ghost var m := entries;
      assert ops[0..] == ops;
      for i := 0 to |ops|
        invariant Valid()
        invariant (entries, replies) == MapRun(m, ops[..i])
        invariant Safe(MapEdits(entries, ops[i..]))
      {
        assert ops[..i + 1][..i] == ops[..i] && ops[..i + 1][i] == ops[i];
        assert |MapRun(m, ops[..i + 1]).0| < slots.Length;
        assert ops[i..][0] == ops[i] && ops[i..][1..] == ops[i + 1..];
        var reply := Perform(ops[i], MapEdits(MapStep(entries, ops[i]).0, ops[i + 1..]));
        replies := replies + [reply];
      }
      assert ops[..|ops|] == ops;
    }
  }

  // ----- two short runs of a table --------------------------------------------------------

  /** Erasing a key right after inserting it, with the coded erase: ids and live entries are as they were. */
  method InsertThenEraseIt(m: OrderIdMap, id: OrderId, value: int)
    requires m.Valid() && id != INVALID_ORDER_ID && id !in m.entries && m.size + 1 < m.slots.Length
    modifies m, m.slots
    ensures m.Valid() && m.entries == old(m.entries)
    ensures forall k :: 0 <= k < m.slots.Length ==>
      m.slots[k].id == old(m.slots[k].id) && (old(m.slots[k].id) != INVALID_ORDER_ID ==> m.slots[k] == old(m.slots[k]))
  {
    hide Reachable, AllReachable, Holds, HasEmpty, Finds, ShiftEnd, Shifted, PassedUpTo, EraseSafe;
    ghost var t := m.slots[..];
    var _ := m.Insert(id, value);
    ghost var i: nat :| i < |t| && StopsAt(m.hash, t, id, i) && t[i].id == 0 && m.slots[..] == t[i := Entry(id, value)];
    ghost var t1, places := m.slots[..], m.places;
    assert Holds(t1, m.entries, places);
    var _ := m.Erase(id);
    ghost var p: nat, g: nat :|
      p < |t1| && g < |t1| && ErasesAt(m.hash, t1, id, p, g) && Shifted(t1, p, g, m.slots[..]);
    OnlyThere(t1, old(m.entries)[id := value], places, i, p);
    assert m.entries == old(m.entries);
    assert forall k :: 0 <= k < m.slots.Length ==> m.slots[k] == m.slots[..][k];
    InsertThenErase(m.hash, t, id, value, i, g, m.slots[..]);
  }

  /** The three inserts of CodedEraseLosesAKey. */
  method InsertThree(n: nat, h: Hash, a: OrderId, b: OrderId, c: OrderId) returns (m: OrderIdMap)
    requires n <= WORD / 2 && Colliding(h, RoundUpPow2(n), a, b, c)
    ensures fresh(m) && fresh(m.slots) && m.Valid() && m.hash == h && m.entries.Keys == {a, b, c}
    ensures m.slots.Length == RoundUpPow2(n)
    ensures m.slots[..] == Cluster(h, RoundUpPow2(n), a, b, c, 10, 20, 30)
  {
    hide OrderIdMap.Sound, AllReachable, StopsAt, InsertedInto, SafeEdits, RoundUpPow2, Shifted, Finds, ErasesAt, Home;
    m := new OrderIdMap(n, h, AsCoded);
    ghost var cap := m.slots.Length;
    ghost var x := Home(h, cap, a);
    ghost var y, t0 := Next(cap, x), m.slots[..];
    ghost var z := Next(cap, y);
    assert t0 == EmptyTable(cap);
    CodedEraseLosesAKey(h, cap, a, b, c, 10, 20, 30);
    var _ := m.Insert(a, 10);
    InsertedAt(h, t0, a, 10, x, m.slots[..]);
    var _ := m.Insert(b, 20);
    InsertedAt(h, t0[x := Entry(a, 10)], b, 20, y, m.slots[..]);
    var _ := m.Insert(c, 30);
    InsertedAt(h, t0[x := Entry(a, 10)][y := Entry(b, 20)], c, 30, z, m.slots[..]);
  }

  /** Three inserts and a coded erase, after which the third key is stored but not found. */
  method EraseLosesAKey(n: nat, h: Hash, a: OrderId, b: OrderId, c: OrderId) returns (m: OrderIdMap, found: int)
    requires n <= WORD / 2 && Colliding(h, RoundUpPow2(n), a, b, c)
    ensures c in m.entries && found == NULL
  {
    hide AllReachable, Holds, HasEmpty, ShiftEnd, Shifted, StopsAt, EraseSafe, ErasedFrom, Finds, RoundUpPow2, Home;
    m := InsertThree(n, h, a, b, c);
    ghost var cap, t3 := m.slots.Length, m.slots[..];
    ghost var x := Home(h, cap, a);
    CodedEraseLosesAKey(h, cap, a, b, c, 10, 20, 30);
    FirstFound(h, cap, a, b, c, 10, 20, 30);
    var _ := m.Erase(a);
    ErasedOnce(h, t3, a, x, x, t3[x := Entry(0, 10)], m.slots[..]);
    found := m.Find(c);
  }

  /** Before the erase the first key is found. */
  lemma FirstFound(h: Hash, cap: nat, a: OrderId, b: OrderId, c: OrderId, va: int, vb: int, vc: int)
    requires Colliding(h, cap, a, b, c)
    ensures Finds(h, Cluster(h, cap, a, b, c, va, vb, vc), a)
  {
    assert Reachable(h, Cluster(h, cap, a, b, c, va, vb, vc), Home(h, cap, a));
  }
}
