/** What top_n shows of a sorted queue: its best price levels, strictly worsening, each with its total and count. */
module NaiveQueries {
  import opened LobTypes
  import opened NaiveBook
  import opened NaiveLaws

  function CountAt(os: seq<Resting>, p: Price): nat {
    if os == [] then 0 else (if os[0].price == p then 1 else 0) + CountAt(os[1..], p)
  }

  /** The distinct prices of a queue. */
  ghost function Prices(os: seq<Resting>): (ps: set<Price>)
    ensures forall p :: p in ps <==> exists i :: 0 <= i < |os| && os[i].price == p
  {
    if os == [] then {}
    else
      assert forall i :: 0 < i < |os| ==> os[i] == os[1..][i - 1];
      {os[0].price} + Prices(os[1..])
  }

  /** The first k orders share price p, the others have another one. */
  ghost predicate Group(os: seq<Resting>, k: nat, p: Price) {
    && k <= |os|
    && (forall i :: 0 <= i < k ==> os[i].price == p)
    && (forall i :: k <= i < |os| ==> os[i].price != p)
  }

  /** On a sorted queue the orders at the front price are a group, and all others are strictly worse. */
  lemma FrontGroup(s: Side, os: seq<Resting>)
    requires Sorted(s, os) && os != []
    ensures var k := FrontCount(os);
      && 0 < k && Group(os, k, os[0].price) && Sorted(s, os[k..])
      && forall i :: k <= i < |os| ==> Ahead(s, os[0].price, os[i].price)
  {
    var k := FrontCount(os);
    forall i | k <= i < |os| ensures Ahead(s, os[0].price, os[i].price) {
      assert !Ahead(s, os[k].price, os[0].price);
      if i > k { assert !Ahead(s, os[i].price, os[k].price); }
    }
  }

  lemma {:induction false} GroupTotals(os: seq<Resting>, k: nat, p: Price)
    requires Group(os, k, p)
    ensures Total(os[..k]) == TotalAt(os, p) && k == CountAt(os, p)
    ensures forall q :: q != p ==> TotalAt(os, q) == TotalAt(os[k..], q) && CountAt(os, q) == CountAt(os[k..], q)
  {
    if os == [] {
    } else if k == 0 {
      assert os[..k] == [] && os[k..] == os && os[1..][0..] == os[1..] && os[1..][..0] == [];
      GroupTotals(os[1..], 0, p);
    } else {
      assert os[..k][1..] == os[1..][..k - 1] && os[k..] == os[1..][k - 1..];
      GroupTotals(os[1..], k - 1, p);
    }
  }

  lemma GroupPrices(os: seq<Resting>, k: nat, p: Price)
    requires Group(os, k, p) && k > 0
    ensures Prices(os) == {p} + Prices(os[k..]) && p !in Prices(os[k..])
  {
    assert os[0].price == p;
    forall q ensures q in Prices(os) <==> q in {p} + Prices(os[k..]) {
      if q in Prices(os) && q != p {
        var i :| 0 <= i < |os| && os[i].price == q;
        assert os[k..][i - k] == os[i];
      }
      if q in Prices(os[k..]) {
        var i :| 0 <= i < |os[k..]| && os[k..][i].price == q;
        assert os[k + i] == os[k..][i];
      }
    }
  }

  /** An entry tells the truth about its price. */
  ghost predicate Shows(os: seq<Resting>, l: LevelSnapshot) {
    l.price in Prices(os) && l.qty == Wrap32(TotalAt(os, l.price)) && l.count == Wrap32(CountAt(os, l.price))
  }

  ghost predicate AllShow(os: seq<Resting>, out: seq<LevelSnapshot>) {
    forall i :: 0 <= i < |out| ==> Shows(os, out[i])
  }

  ghost predicate Worsens(s: Side, out: seq<LevelSnapshot>) {
    forall i, j :: 0 <= i < j < |out| ==> Ahead(s, out[i].price, out[j].price)
  }

  ghost predicate Shown(out: seq<LevelSnapshot>, p: Price) {
    exists j :: 0 <= j < |out| && out[j].price == p
  }

  /** A price better than one shown is shown too. */
  ghost predicate NoneSkipped(s: Side, ps: set<Price>, out: seq<LevelSnapshot>) {
    forall p, q :: p in ps && Shown(out, q) && Ahead(s, p, q) ==> Shown(out, p)
  }

  /** What top_n promises: as many entries as asked for or as there are prices, each the 32-bit total and count
      at its price, prices strictly worsening, no better price left out. */
  ghost predicate BestLevels(s: Side, os: seq<Resting>, n: nat, out: seq<LevelSnapshot>) {
    |out| == Min(n, |Prices(os)|) && AllShow(os, out) && Worsens(s, out) && NoneSkipped(s, Prices(os), out)
  }

  lemma {:induction false} TopNIsBestLevels(s: Side, os: seq<Resting>, n: nat)
    requires Sorted(s, os)
    ensures BestLevels(s, os, n, TopN(os, n))
    decreases |os|
  {
    hide BestLevels, TopN;
    if n > 0 && os != [] {
      FrontGroup(s, os);
      TopNIsBestLevels(s, os[FrontCount(os)..], n - 1);
      OneMoreLevel(s, os, n);
    } else {
      NoLevels(s, os, n);
    }
  }

  lemma NoLevels(s: Side, os: seq<Resting>, n: nat)
    requires n == 0 || os == []
    ensures BestLevels(s, os, n, TopN(os, n))
  {
    hide Total, TotalAt, CountAt, FrontCount;
    assert os == [] ==> Prices(os) == {};
  }

  lemma OneMoreLevel(s: Side, os: seq<Resting>, n: nat)
    requires Sorted(s, os) && n > 0 && os != []
    requires BestLevels(s, os[FrontCount(os)..], n - 1, TopN(os[FrontCount(os)..], n - 1))
    ensures BestLevels(s, os, n, TopN(os, n))
  {
    hide Sorted, Prices, AllShow, Worsens, NoneSkipped, Total, TotalAt, CountAt, Group;
    FrontGroup(s, os);
    var k, p := FrontCount(os), os[0].price;
    var l, more := LevelSnapshot(p, Wrap32(Total(os[..k])), Wrap32(k)), TopN(os[k..], n - 1);
    assert TopN(os, n) == [l] + more;
    hide TopN, FrontCount;
    GroupPrices(os, k, p);
    GroupFront(os, k, p);
    OneMoreShows(os, k, l, more);
    OneMoreWorsens(s, os, k, l, more);
    WorsePrices(s, os, k, p);
    NoneSkippedNext(s, Prices(os[k..]), l, more);
  }

  lemma GroupFront(os: seq<Resting>, k: nat, p: Price)
    requires Group(os, k, p)
    ensures Total(os[..k]) == TotalAt(os, p) && k == CountAt(os, p)
  {
    GroupTotals(os, k, p);
  }

  lemma WorsePrices(s: Side, os: seq<Resting>, k: nat, p: Price)
    requires k <= |os| && (forall i :: k <= i < |os| ==> Ahead(s, p, os[i].price))
    ensures forall q :: q in Prices(os[k..]) ==> Ahead(s, p, q)
  {
    forall q | q in Prices(os[k..]) ensures Ahead(s, p, q) {
      var i :| 0 <= i < |os[k..]| && os[k..][i].price == q;
      assert os[k + i] == os[k..][i];
    }
  }

  lemma OneMoreShows(os: seq<Resting>, k: nat, l: LevelSnapshot, more: seq<LevelSnapshot>)
    requires k > 0 && Group(os, k, l.price) && AllShow(os[k..], more)
    requires l.qty == Wrap32(TotalAt(os, l.price)) && l.count == Wrap32(CountAt(os, l.price))
    ensures AllShow(os, [l] + more)
  {
    hide Prices, TotalAt, CountAt;
    GroupTotals(os, k, l.price);
    GroupPrices(os, k, l.price);
    forall i | 0 <= i < |[l] + more| ensures Shows(os, ([l] + more)[i]) {
      if i > 0 { assert Shows(os[k..], more[i - 1]); }
    }
  }

  lemma OneMoreWorsens(s: Side, os: seq<Resting>, k: nat, l: LevelSnapshot, more: seq<LevelSnapshot>)
    requires k <= |os| && (forall i :: k <= i < |os| ==> Ahead(s, l.price, os[i].price))
    requires AllShow(os[k..], more) && Worsens(s, more)
    ensures Worsens(s, [l] + more)
  {
    hide TotalAt, CountAt, Prices;
    forall i | 0 <= i < |more| ensures Ahead(s, l.price, more[i].price) {
      assert Shows(os[k..], more[i]);
      var j :| 0 <= j < |os[k..]| && os[k..][j].price == more[i].price;
      assert os[k + j] == os[k..][j];
    }
  }

  lemma NoneSkippedNext(s: Side, ps: set<Price>, l: LevelSnapshot, more: seq<LevelSnapshot>)
    requires NoneSkipped(s, ps, more) && Worsens(s, [l] + more)
    requires forall p :: p in ps ==> Ahead(s, l.price, p)
    ensures NoneSkipped(s, {l.price} + ps, [l] + more)
  {
    var out := [l] + more;
    forall p, q | p in {l.price} + ps && Shown(out, q) && Ahead(s, p, q)
      ensures Shown(out, p)
    {
      if p == l.price {
        assert out[0].price == p;
      } else {
        var j :| 0 <= j < |out| && out[j].price == q;
        assert j > 0 && more[j - 1].price == q && Shown(more, q) && Shown(more, p);
        var i :| 0 <= i < |more| && more[i].price == p;
        assert out[i + 1].price == p;
      }
    }
  }
}
