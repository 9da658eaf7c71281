/** The hash of include/lob/order_id_map.hpp, and three ids on which it collides. Everything else holds for every
    hash function. */
module SplitMix {
  import opened LobTypes
  import opened Words
  import opened OrderIdMaps

  function Mix(x: bv64): bv64 {
    var y := (x ^ (x >> 30)) * 0xbf58476d1ce4e5b9;
    var z := (y ^ (y >> 27)) * 0x94d049bb133111eb;
    z ^ (z >> 31)
  }

  function Mixed(id: OrderId): nat {
    Mix(id as bv64) as nat
  }

  /** hash, as the id index takes it. */
  function SourceHash(): Hash {
    id => Mixed(id)
  }

  lemma ThreeMixes()
    ensures Mix(1) == 0x5692161d100b05e5 && Mix(17) == 0x302b8631721c51be && Mix(11) == 0x3462d848f53abb6d
  {
  }

  lemma ThreeHashes()
    ensures Mixed(1) == 0x5692161d100b05e5 && Mixed(17) == 0x302b8631721c51be && Mixed(11) == 0x3462d848f53abb6d
  {
    ThreeMixes();
    hide Mix;
    assert (1 as OrderId) as bv64 == 1 && (17 as OrderId) as bv64 == 17 && (11 as OrderId) as bv64 == 11;
    assert (0x5692161d100b05e5 as bv64) as nat == 0x5692161d100b05e5;
    assert (0x302b8631721c51be as bv64) as nat == 0x302b8631721c51be;
    assert (0x3462d848f53abb6d as bv64) as nat == 0x3462d848f53abb6d;
  }

  lemma {:induction false} MaskedByEight(x: nat)
    ensures Masked(x, 8) == x % 8
  {
    if x >= 8 { MaskedByEight(x - 8); }
  }

  /** In a table of eight slots ids 1 and 11 have home slot 5 and id 17 has home slot 6. */
  lemma SourceHashCollides()
    ensures Home(SourceHash(), 8, 1) == 5 && Home(SourceHash(), 8, 17) == 6 && Home(SourceHash(), 8, 11) == 5
    ensures Colliding(SourceHash(), 8, 1, 17, 11)
  {
    hide Mixed, Masked;
    ThreeHashes();
    MaskedByEight(Mixed(1));
    MaskedByEight(Mixed(17));
    MaskedByEight(Mixed(11));
  }

  /** The source's own table of eight slots: insert 1, 17 and 11, erase 1, and 11 is not found. */
  method SourceTableLosesAKey() returns (m: OrderIdMap, found: int)
    ensures 11 in m.entries && found == NULL
  {
    hide Colliding, RoundUpPow2, Mixed;
    EightIsPow2();
    SourceHashCollides();
    m, found := EraseLosesAKey(8, SourceHash(), 1, 17, 11);
  }

  lemma EightIsPow2()
    ensures RoundUpPow2(8) == 8
  {
    RoundUpIsLeast(8);
    assert Pow2(3) == 8;
  }
}
