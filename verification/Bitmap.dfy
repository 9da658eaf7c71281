/** Unsigned 64-bit words as integers, with the bit operations include/lob/bitmap.hpp uses on them. */
module Words {

  const WORD: nat := 0x1_0000_0000_0000_0000

  /** The last size_t value, which the source also uses for "none". */
  const SIZE_MAX: Word := 0xFFFF_FFFF_FFFF_FFFF

  const ALL_ONES: Word := SIZE_MAX

  type Word = w: nat | w < 0x1_0000_0000_0000_0000

  /** Bit k of w: shift right k times and look at the last bit. */
  predicate Bit(w: nat, k: nat) {
    if k == 0 then w % 2 == 1 else Bit(w / 2, k - 1)
  }

  /** std::size_t and uint64_t arithmetic. */
  function Wrap64(x: int): Word {
    x % 0x1_0000_0000_0000_0000
  }

  lemma Wrap64Sum(a: int, b: int)
    ensures Wrap64(Wrap64(a) + b) == Wrap64(a + b)
  {
  }

  function Pow2(k: nat): (p: nat)
    ensures p > 0
  {
    if k == 0 then 1 else 2 * Pow2(k - 1)
  }

  function And(a: nat, b: nat): (r: nat)
    ensures r <= a
  {
    if a == 0 || b == 0 then 0
    else (if a % 2 == 1 && b % 2 == 1 then 1 else 0) + 2 * And(a / 2, b / 2)
  }

  function Or(a: nat, b: nat): nat {
    if a == 0 then b
    else if b == 0 then a
    else (if a % 2 == 1 || b % 2 == 1 then 1 else 0) + 2 * Or(a / 2, b / 2)
  }

  function Not(w: Word): Word {
    ALL_ONES - w
  }

  /** w << k, dropping what leaves the word. */
  function Shl(w: Word, k: nat): Word {
    if k == 0 then w else
      var h := Shl(w, k - 1);
      if h < WORD / 2 then 2 * h else 2 * h - WORD
  }

  /** std::countr_zero: the number of clear bits below the lowest set bit. */
  function CountrZero(w: Word, k: nat := 0): (n: nat)
    requires k <= 64
    ensures k <= n <= 64
    ensures forall j :: k <= j < n ==> !Bit(w, j)
    ensures n < 64 ==> Bit(w, n)
    decreases 64 - k
  {
    if k == 64 || Bit(w, k) then k else CountrZero(w, k + 1)
  }

  /** std::countl_zero: the number of clear bits above the highest set bit. */
  function CountlZero(w: Word, k: nat := 0): (n: nat)
    requires k <= 64
    ensures k <= n <= 64
    ensures forall j :: 63 - n < j <= 63 - k ==> !Bit(w, j)
    ensures n < 64 ==> Bit(w, 63 - n)
    decreases 64 - k
  {
    if k == 64 || Bit(w, 63 - k) then k else CountlZero(w, k + 1)
  }

  lemma Pow2Word()
    ensures Pow2(64) == WORD && Pow2(63) == WORD / 2
  {
    assert Pow2(8) == 0x100;
    assert Pow2(16) == 0x1_0000;
    assert Pow2(24) == 0x100_0000;
    assert Pow2(32) == 0x1_0000_0000;
    assert Pow2(40) == 0x100_0000_0000;
    assert Pow2(48) == 0x1_0000_0000_0000;
    assert Pow2(56) == 0x100_0000_0000_0000;
    assert Pow2(63) == 0x8000_0000_0000_0000;
  }

  lemma {:induction false} ZeroBits(k: nat)
    ensures !Bit(0, k)
  {
    if k > 0 { ZeroBits(k - 1); }
  }

  /** A word is zero iff no bit of it is set. */
  lemma {:induction false} ZeroWord(w: nat, n: nat)
    requires w < Pow2(n)
    ensures w == 0 <==> forall k :: 0 <= k < n ==> !Bit(w, k)
  {
    if w == 0 {
      forall k | 0 <= k < n ensures !Bit(w, k) { ZeroBits(k); }
    } else if n > 0 {
      ZeroWord(w / 2, n - 1);
      if w / 2 == 0 { assert Bit(w, 0); }
      else {
        var k :| 0 <= k < n - 1 && Bit(w / 2, k);
        assert Bit(w, k + 1);
      }
      assert exists k :: 0 <= k < n && Bit(w, k);
    }
  }

  lemma {:induction false} AndBit(a: nat, b: nat, k: nat)
    ensures Bit(And(a, b), k) <==> Bit(a, k) && Bit(b, k)
  {
    if a == 0 || b == 0 { ZeroBits(k); } else if k > 0 { AndBit(a / 2, b / 2, k - 1); }
  }

  lemma {:induction false} OrBit(a: nat, b: nat, k: nat)
    ensures Bit(Or(a, b), k) <==> Bit(a, k) || Bit(b, k)
  {
    if a == 0 || b == 0 { ZeroBits(k); } else if k > 0 { OrBit(a / 2, b / 2, k - 1); }
  }

  lemma {:induction false} OrBound(a: nat, b: nat, n: nat)
    requires a < Pow2(n) && b < Pow2(n)
    ensures Or(a, b) < Pow2(n)
  {
    if a != 0 && b != 0 { OrBound(a / 2, b / 2, n - 1); }
  }

  lemma {:induction false} NotBit(w: nat, n: nat, k: nat)
    requires w < Pow2(n) && k < n
    ensures Bit(Pow2(n) - 1 - w, k) <==> !Bit(w, k)
  {
    if k > 0 {
      assert (Pow2(n) - 1 - w) / 2 == Pow2(n - 1) - 1 - w / 2;
      NotBit(w / 2, n - 1, k - 1);
    }
  }

  lemma {:induction false} DropTop(w: nat, n: nat, k: nat)
    requires Pow2(n) <= w && k < n
    ensures Bit(w - Pow2(n), k) <==> Bit(w, k)
  {
    if k > 0 {
      assert (w - Pow2(n)) / 2 == w / 2 - Pow2(n - 1);
      DropTop(w / 2, n - 1, k - 1);
    }
  }

  lemma {:induction false} ShlBit(w: Word, k: nat, i: nat)
    requires i < 64
    ensures Bit(Shl(w, k), i) <==> k <= i && Bit(w, i - k)
  {
    if k > 0 {
      var h := Shl(w, k - 1);
      if i > 0 {
        ShlBit(w, k - 1, i - 1);
        Pow2Word();
        if h >= WORD / 2 { DropTop(h, 63, i - 1); }
      }
    }
  }

  lemma {:induction false} OneBit(k: nat)
    ensures Bit(1, k) <==> k == 0
  {
    if k > 0 { ZeroBits(k - 1); }
  }

  lemma {:induction false} ShlOne(k: nat)
    requires k < 64
    ensures Shl(1, k) == Pow2(k)
  {
    if k > 0 {
      ShlOne(k - 1);
      Pow2Mono(k, 63);
      Pow2Word();
    }
  }

  lemma {:induction false} Pow2Mono(j: nat, k: nat)
    requires j <= k
    ensures Pow2(j) <= Pow2(k)
  {
    if j < k { Pow2Mono(j, k - 1); }
  }

  lemma {:induction false} LowOnes(n: nat, k: nat)
    ensures Bit(Pow2(n) - 1, k) <==> k < n
  {
    if n == 0 { ZeroBits(k); }
    else if k > 0 {
      assert (Pow2(n) - 1) / 2 == Pow2(n - 1) - 1;
      LowOnes(n - 1, k - 1);
    }
  }

  /** w |= 1 << j: stays a word, sets bit j and no other. */
  lemma SetBit(w: Word, j: nat)
    requires j < 64
    ensures Or(w, Shl(1, j)) < WORD
    ensures forall k :: 0 <= k < 64 ==> (Bit(Or(w, Shl(1, j)), k) <==> k == j || Bit(w, k))
  {
    Pow2Word();
    OrBound(w, Shl(1, j), 64);
    forall k | 0 <= k < 64 ensures Bit(Or(w, Shl(1, j)), k) <==> k == j || Bit(w, k) {
      OrBit(w, Shl(1, j), k);
      ShlBit(1, j, k);
      if j <= k { OneBit(k - j); }
    }
  }

  /** w &= ~(1 << j) clears bit j and no other. */
  lemma ClearBit(w: Word, j: nat)
    requires j < 64
    ensures forall k :: 0 <= k < 64 ==> (Bit(And(w, Not(Shl(1, j))), k) <==> k != j && Bit(w, k))
  {
    Pow2Word();
    forall k | 0 <= k < 64 ensures Bit(And(w, Not(Shl(1, j))), k) <==> k != j && Bit(w, k) {
      AndBit(w, Not(Shl(1, j)), k);
      NotBit(Shl(1, j), 64, k);
      ShlBit(1, j, k);
      if j <= k { OneBit(k - j); }
    }
  }

  /** w & (~0 << j) keeps exactly the bits at or above j. */
  lemma HighBits(w: Word, j: nat)
    requires j < 64
    ensures forall k :: 0 <= k < 64 ==> (Bit(And(w, Shl(ALL_ONES, j)), k) <==> k >= j && Bit(w, k))
  {
    Pow2Word();
    forall k | 0 <= k < 64 ensures Bit(And(w, Shl(ALL_ONES, j)), k) <==> k >= j && Bit(w, k) {
      AndBit(w, Shl(ALL_ONES, j), k);
      ShlBit(ALL_ONES, j, k);
      if j <= k { LowOnes(64, k - j); }
    }
  }

  /** The mask of find_prev_set: 64 ones, or (1 << (j + 1)) - 1. */
  function UpTo(j: nat): (m: int)
    requires j < 64
    ensures m >= -1
  {
    if j == 63 then ALL_ONES else Shl(1, j + 1) - 1
  }

  /** w & UpTo(j) keeps exactly the bits at or below j. */
  lemma LowBits(w: Word, j: nat)
    requires j < 64
    ensures UpTo(j) >= 0
    ensures forall k :: 0 <= k < 64 ==> (Bit(And(w, UpTo(j)), k) <==> k <= j && Bit(w, k))
  {
    Pow2Word();
    if j < 63 { ShlOne(j + 1); }
    forall k | 0 <= k < 64 ensures Bit(And(w, UpTo(j)), k) <==> k <= j && Bit(w, k) {
      AndBit(w, UpTo(j), k);
      LowOnes(j + 1, k);
    }
  }

  // ----- powers of two -------------------------------------------------------------

  ghost predicate IsPow2(n: nat) {
    exists k: nat :: n == Pow2(k)
  }

  /** No bit at or above b: the word is below 2^b. */
  lemma {:induction false} BelowPow2(w: nat, n: nat, b: nat)
    requires w < Pow2(n) && b <= n
    requires forall j :: b <= j < n ==> !Bit(w, j)
    ensures w < Pow2(b)
  {
    if b == 0 { ZeroWord(w, n); }
    else {
      forall j | b - 1 <= j < n - 1 ensures !Bit(w / 2, j) { assert !Bit(w, j + 1); }
      BelowPow2(w / 2, n - 1, b - 1);
    }
  }

  lemma {:induction false} AtLeastPow2(w: nat, b: nat)
    requires Bit(w, b)
    ensures Pow2(b) <= w
  {
    if b > 0 { AtLeastPow2(w / 2, b - 1); }
  }

  /** OrderIdMap::round_up_pow2: 2 for n below 2, otherwise 1 << (64 - countl_zero(n - 1)). */
  function RoundUpPow2(n: nat): nat
    requires n <= WORD / 2
  {
    if n < 2 then 2 else Shl(1, 64 - CountlZero(n - 1))
  }

  /** It is the least power of two that is at least n and at least 2. */
  lemma RoundUpIsLeast(n: nat)
    requires n <= WORD / 2
    ensures IsPow2(RoundUpPow2(n)) && n <= RoundUpPow2(n) && 2 <= RoundUpPow2(n)
    ensures forall k: nat :: n <= Pow2(k) && 2 <= Pow2(k) ==> RoundUpPow2(n) <= Pow2(k)
  {
    Pow2Word();
    if n < 2 {
      assert RoundUpPow2(n) == Pow2(1);
    } else {
      ZeroWord(n - 1, 64);
      var b := 63 - CountlZero(n - 1);
      AtLeastPow2(n - 1, b);
      BelowPow2(n - 1, 64, b + 1);
      if b == 63 { assert false; }
      ShlOne(b + 1);
      assert RoundUpPow2(n) == Pow2(b + 1);
      forall k: nat | n <= Pow2(k) ensures Pow2(b + 1) <= Pow2(k) {
        if k <= b { Pow2Mono(k, b); } else { Pow2Mono(b + 1, k); }
      }
    }
  }

  /** x & mask, the mask being one less than the capacity. */
  function Masked(x: nat, cap: nat): (i: nat)
    requires cap > 0
    ensures i < cap
  {
    if x < cap then x else Masked(x - cap, cap)
  }

  lemma {:induction false} MaskedHalf(x: nat, c: nat)
    requires c > 0
    ensures Masked(x, 2 * c) == 2 * Masked(x / 2, c) + x % 2
  {
    if x >= 2 * c {
      assert (x - 2 * c) / 2 == x / 2 - c;
      MaskedHalf(x - 2 * c, c);
    }
  }

  /** For a power-of-two capacity, and-ing with the mask is what Masked says. */
  lemma {:induction false} MaskIsMasked(x: nat, k: nat)
    ensures And(x, Pow2(k) - 1) == Masked(x, Pow2(k))
  {
    if k == 0 {
      MaskedOne(x);
    } else {
      MaskIsMasked(x / 2, k - 1);
      MaskedHalf(x, Pow2(k - 1));
      assert (Pow2(k) - 1) / 2 == Pow2(k - 1) - 1;
      AndStep(x, Pow2(k) - 1);
    }
  }

  lemma {:induction false} MaskedOne(x: nat)
    ensures Masked(x, 1) == 0
  {
    if x > 0 { MaskedOne(x - 1); }
  }

  lemma AndStep(a: nat, b: nat)
    ensures And(a, b) == (if a % 2 == 1 && b % 2 == 1 then 1 else 0) + 2 * And(a / 2, b / 2)
  {
  }
}

/** include/lob/bitmap.hpp: a packed set of indices, one bit each, with word-at-a-time scans. */
module Bitmaps {
  import opened Words

  const NOT_FOUND: nat := SIZE_MAX

  class Bitmap {
    const words: array<Word>

    /** The set indices. */
    ghost function Members(): set<nat>
      reads words
    {
      set i: nat | i < 64 * words.Length && Bit(words[i / 64], i % 64)
    }

    ghost predicate Valid() {
      64 * words.Length < NOT_FOUND
    }

    constructor (numBits: nat)
      requires numBits + 63 < NOT_FOUND
      ensures Valid() && fresh(words)
      ensures numBits <= 64 * words.Length
      ensures Members() == {}
    {
      words := new Word[(numBits + 63) / 64](_ => 0);
      new;
      forall k: nat ensures !Bit(0, k) { ZeroBits(k); }
    }

    method Set(idx: nat)
      requires idx < 64 * words.Length
      modifies words
      ensures Members() == old(Members()) + {idx}
    {
      ghost var was := words[idx / 64];
      SetBit(was, idx % 64);
      words[idx / 64] := Or(words[idx / 64], Shl(1, idx % 64));
      MembersAfter(old(words[..]), idx, true);
    }

    method Clear(idx: nat)
      requires idx < 64 * words.Length
      modifies words
      ensures Members() == old(Members()) - {idx}
    {
      ghost var was := words[idx / 64];
      ClearBit(was, idx % 64);
      words[idx / 64] := And(words[idx / 64], Not(Shl(1, idx % 64)));
      MembersAfter(old(words[..]), idx, false);
    }

    /** Changing bit idx of its word, and nothing else, changes membership of idx and nothing else. */
    lemma MembersAfter(was: seq<Word>, idx: nat, on: bool)
      requires |was| == words.Length && idx < 64 * words.Length
      requires words[..] == was[idx / 64 := words[idx / 64]]
      requires forall k :: 0 <= k < 64 ==>
        (Bit(words[idx / 64], k) <==> if k == idx % 64 then on else Bit(was[idx / 64], k))
      ensures forall i :: 0 <= i < 64 * words.Length ==>
        (i in Members() <==> if i == idx then on else Bit(was[i / 64], i % 64))
    {
      forall i | 0 <= i < 64 * words.Length
        ensures i in Members() <==> if i == idx then on else Bit(was[i / 64], i % 64)
      {
        assert words[i / 64] == words[..][i / 64];
        if i / 64 == idx / 64 && i % 64 == idx % 64 { assert i == idx; }
      }
    }

    method Test(idx: nat) returns (b: bool)
      requires idx < 64 * words.Length
      ensures b <==> idx in Members()
    {
      b := Bit(words[idx / 64], idx % 64);
    }

    /** A word whose bits at or above `from` are all clear holds no member at or above `from`. */
    lemma NoneAbove(w: nat, from: nat)
      requires w < words.Length
      requires forall k :: 0 <= k < 64 && from <= 64 * w + k ==> !Bit(words[w], k)
      ensures forall i :: i in Members() && from <= i && 64 * w <= i ==> 64 * (w + 1) <= i
    {
      forall i | i in Members() && from <= i && 64 * w <= i ensures 64 * (w + 1) <= i {
        assert i == 64 * (i / 64) + i % 64;
      }
    }

    lemma NoneBelow(w: nat, from: nat)
      requires w < words.Length
      requires forall k :: 0 <= k < 64 && 64 * w + k <= from ==> !Bit(words[w], k)
      ensures forall i :: i in Members() && i <= from && i < 64 * (w + 1) ==> i < 64 * w
    {
      forall i | i in Members() && i <= from && i < 64 * (w + 1) ensures i < 64 * w {
        assert i == 64 * (i / 64) + i % 64;
      }
    }

    /** The lowest bit of word w at or above `from` is the least member there. */
    lemma FirstInWord(w: nat, from: nat, n: nat)
      requires w < words.Length && n < 64 && from <= 64 * w + n
      requires Bit(words[w], n)
      requires forall k :: 0 <= k < n && from <= 64 * w + k ==> !Bit(words[w], k)
      requires forall i :: i in Members() && from <= i ==> 64 * w <= i
      ensures 64 * w + n in Members()
      ensures forall i :: i in Members() && from <= i ==> 64 * w + n <= i
    {
      forall i | i in Members() && from <= i ensures 64 * w + n <= i {
        assert i == 64 * (i / 64) + i % 64;
      }
      assert (64 * w + n) / 64 == w && (64 * w + n) % 64 == n;
    }

    lemma LastInWord(w: nat, from: nat, n: nat)
      requires w < words.Length && n < 64 && 64 * w + n <= from
      requires Bit(words[w], n)
      requires forall k :: n < k < 64 && 64 * w + k <= from ==> !Bit(words[w], k)
      requires forall i :: i in Members() && i <= from ==> i < 64 * (w + 1)
      ensures 64 * w + n in Members()
      ensures forall i :: i in Members() && i <= from ==> i <= 64 * w + n
    {
      forall i | i in Members() && i <= from ensures i <= 64 * w + n {
        assert i == 64 * (i / 64) + i % 64;
      }
      assert (64 * w + n) / 64 == w && (64 * w + n) % 64 == n;
    }

    /** The least member at or above `from`. */
    method FindNextSet(from: nat) returns (r: nat)
      requires Valid()
      ensures r == NOT_FOUND ==> forall i :: i in Members() ==> i < from
      ensures r != NOT_FOUND ==> r in Members() && from <= r
      ensures r != NOT_FOUND ==> forall i :: i in Members() && from <= i ==> r <= i
    {
      hide And, Shl, Pow2, Bit;
      var w := from / 64;
      if w >= words.Length { return NOT_FOUND; }
      HighBits(words[w], from % 64);
      var bits: Word := And(words[w], Shl(ALL_ONES, from % 64));
      Pow2Word();
      while bits == 0
        invariant w < words.Length && from / 64 <= w
        invariant forall k :: 0 <= k < 64 ==> (Bit(bits, k) <==> from <= 64 * w + k && Bit(words[w], k))
        invariant forall i :: i in Members() && from <= i ==> 64 * w <= i
        decreases words.Length - w
      {
        ZeroWord(bits, 64);
        NoneAbove(w, from);
        w := w + 1;
        if w >= words.Length { return NOT_FOUND; }
        bits := words[w];
      }
      ZeroWord(bits, 64);
      FirstInWord(w, from, CountrZero(bits));
      r := 64 * w + CountrZero(bits);
    }

    /** The greatest member at or below `from`; `from` may lie past the last word. */
    method FindPrevSet(from: nat) returns (r: nat)
      requires Valid()
      ensures r == NOT_FOUND ==> forall i :: i in Members() ==> from < i
      ensures r != NOT_FOUND ==> r in Members() && r <= from
      ensures r != NOT_FOUND ==> forall i :: i in Members() && i <= from ==> i <= r
    {
      hide And, UpTo, Shl, Pow2, Bit;
      var w := from / 64;
      if w >= words.Length {
        if words.Length == 0 { return NOT_FOUND; }
        w := words.Length - 1;
        r := ScanDown(w, words[w], from);
        return;
      }
      LowBits(words[w], from % 64);
      Pow2Word();
      r := ScanDown(w, And(words[w], UpTo(from % 64)), from);
    }

    /** Of word w, `bits` shows exactly the members at or below `from`. */
    ghost predicate ShowsBelow(w: nat, bits: Word, from: nat)
      requires w < words.Length
      reads words
    {
      forall k :: 0 <= k < 64 ==> (Bit(bits, k) <==> 64 * w + k <= from && Bit(words[w], k))
    }

    /** Every member at or below `from` lies in the words up to w. */
    ghost predicate AllUpTo(w: nat, from: nat)
      reads words
    {
      forall i :: i in Members() && i <= from ==> i < 64 * (w + 1)
    }

    lemma StepDown(w: nat, bits: Word, from: nat)
      requires w < words.Length && 64 * w <= from && ShowsBelow(w, bits, from) && AllUpTo(w, from) && bits == 0
      ensures w == 0 ==> forall i :: i in Members() ==> from < i
      ensures w > 0 ==> ShowsBelow(w - 1, words[w - 1], from) && AllUpTo(w - 1, from)
    {
      hide Bit, Pow2;
      Pow2Word();
      ZeroWord(bits, 64);
      forall k | 0 <= k < 64 && 64 * w + k <= from ensures !Bit(words[w], k) {
        assert !Bit(bits, k);
      }
      NoneBelow(w, from);
    }

    lemma StopAtWord(w: nat, bits: Word, from: nat)
      requires w < words.Length && ShowsBelow(w, bits, from) && AllUpTo(w, from) && bits != 0
      ensures var r := 64 * w + 63 - CountlZero(bits);
        r in Members() && r <= from && forall i :: i in Members() && i <= from ==> i <= r
    {
      hide Bit, Pow2, Members;
      assert CountlZero(bits) < 64 by {
        Pow2Word();
        ZeroWord(bits, 64);
      }
      var n := 63 - CountlZero(bits);
      assert Bit(bits, n);
      forall k | n < k < 64 && 64 * w + k <= from ensures !Bit(words[w], k) { assert !Bit(bits, k); }
      hide ShowsBelow;
      LastInWord(w, from, n);
    }

    /** The loop of find_prev_set, entered at word w0 with the bits of it that may count. */
    method ScanDown(w0: nat, bits0: Word, ghost from: nat) returns (r: nat)
      requires Valid()
      requires w0 < words.Length && 64 * w0 <= from
      requires ShowsBelow(w0, bits0, from) && AllUpTo(w0, from)
      ensures r == NOT_FOUND ==> forall i :: i in Members() ==> from < i
      ensures r != NOT_FOUND ==> r in Members() && r <= from
      ensures r != NOT_FOUND ==> forall i :: i in Members() && i <= from ==> i <= r
    {
      hide ShowsBelow, AllUpTo, Members;
      var w, bits := w0, bits0;
      while bits == 0
        invariant 0 <= w < words.Length && 64 * w <= from
        invariant ShowsBelow(w, bits, from) && AllUpTo(w, from)
        decreases w
      {
        StepDown(w, bits, from);
        if w == 0 { return NOT_FOUND; }
        w := w - 1;
        bits := words[w];
      }
      StopAtWord(w, bits, from);
      r := 64 * w + 63 - CountlZero(bits);
    }
  }
}
