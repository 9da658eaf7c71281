/** src/itch_parser.cpp and include/lob/itch.hpp: BinaryFILE framing and the order-life-cycle messages of
    NASDAQ TotalView-ITCH 5.0 (sections 4.3 to 4.5), decoded, encoded and framed. */
module Itch {
  import opened LobTypes
  import opened Words

  type Byte = b: nat | b < 0x100
  type Uint16 = x: nat | x < 0x1_0000
  type Uint32 = x: nat | x < 0x1_0000_0000
  type Uint48 = x: nat | x < 0x1_0000_0000_0000
  type Uint64 = Word
  type Bytes = seq<Byte>

  // ----- big-endian fields ---------------------------------------------------------

  /** The byte at p[i] moved to bit k, as the shift expressions of be16, be32 and be48 have it. */
  function At(p: Bytes, i: nat, k: nat): Word
    requires i < |p|
  {
    Shl(p[i], k)
  }

  function Be16(p: Bytes, i: nat): nat
    requires i + 2 <= |p|
  {
    Or(At(p, i, 8), p[i + 1])
  }

  function Be32(p: Bytes, i: nat): nat
    requires i + 4 <= |p|
  {
    Or(Or(Or(At(p, i, 24), At(p, i + 1, 16)), At(p, i + 2, 8)), p[i + 3])
  }

  function Be48(p: Bytes, i: nat): nat
    requires i + 6 <= |p|
  {
    Or(Or(Or(Or(Or(At(p, i, 40), At(p, i + 1, 32)), At(p, i + 2, 24)), At(p, i + 3, 16)), At(p, i + 4, 8)), p[i + 5])
  }

  function Be64(p: Bytes, i: nat): nat
    requires i + 8 <= |p|
  {
    Or(ShlNat(Be32(p, i), 32), Be32(p, i + 4))
  }

  /** Shl on an operand not known to be a word. */
  function ShlNat(x: nat, k: nat): nat {
    if x < WORD then Shl(x, k) else 0
  }

  /** The k low bits of a are clear. */
  ghost predicate LowClear(a: nat, k: nat) {
    k == 0 || (a % 2 == 0 && LowClear(a / 2, k - 1))
  }

  lemma {:induction false} OrIsSum(a: nat, b: nat, k: nat)
    requires LowClear(a, k) && b < Pow2(k)
    ensures Or(a, b) == a + b
  {
    if a != 0 && b != 0 { OrIsSum(a / 2, b / 2, k - 1); }
  }

  /** w doubled k times. */
  ghost function Doubled(w: nat, k: nat): nat {
    if k == 0 then w else 2 * Doubled(w, k - 1)
  }

  lemma DoubledBytes(w: nat)
    ensures Doubled(w, 8) == 0x100 * w && Doubled(w, 16) == 0x1_0000 * w && Doubled(w, 24) == 0x100_0000 * w
    ensures Doubled(w, 32) == 0x1_0000_0000 * w && Doubled(w, 40) == 0x100_0000_0000 * w
  {
    DoubledByte(w, 0); DoubledByte(w, 8); DoubledByte(w, 16); DoubledByte(w, 24); DoubledByte(w, 32);
  }

  lemma DoubledByte(w: nat, k: nat)
    ensures Doubled(w, k + 8) == 0x100 * Doubled(w, k)
  {
    assert Doubled(w, k + 2) == 4 * Doubled(w, k);
    assert Doubled(w, k + 4) == 4 * Doubled(w, k + 2);
    assert Doubled(w, k + 6) == 4 * Doubled(w, k + 4);
    assert Doubled(w, k + 8) == 4 * Doubled(w, k + 6);
  }

  /** A shift that drops nothing doubles. */
  lemma {:induction false} ShlDoubles(w: Word, k: nat, n: nat)
    requires w < Pow2(n) && n + k <= 64
    ensures Shl(w, k) == Doubled(w, k) < Pow2(n + k)
    ensures LowClear(Shl(w, k), k)
  {
    if k > 0 {
      ShlDoubles(w, k - 1, n);
      Pow2Mono(n + k - 1, 63);
      Pow2Word();
      assert Shl(w, k) / 2 == Shl(w, k - 1);
    }
  }

  lemma {:induction false} LowClearSum(a: nat, b: nat, k: nat)
    requires LowClear(a, k) && LowClear(b, k)
    ensures LowClear(a + b, k)
  {
    if k > 0 {
      assert (a + b) / 2 == a / 2 + b / 2;
      LowClearSum(a / 2, b / 2, k - 1);
    }
  }

  lemma {:induction false} LowClearLess(a: nat, j: nat, k: nat)
    requires LowClear(a, k) && j <= k
    ensures LowClear(a, j)
  {
    if j > 0 { LowClearLess(a / 2, j - 1, k - 1); }
  }

  lemma Pow2Bytes()
    ensures Pow2(8) == 0x100 && Pow2(16) == 0x1_0000 && Pow2(24) == 0x100_0000 && Pow2(32) == 0x1_0000_0000
    ensures Pow2(40) == 0x100_0000_0000
  {
    assert Pow2(8) == 0x100;
    assert Pow2(16) == 0x1_0000;
    assert Pow2(24) == 0x100_0000;
    assert Pow2(32) == 0x1_0000_0000;
  }

  /** One more byte or-ed in below what is there: plain addition. */
  lemma AddByte(a: nat, b: nat, k: nat)
    requires LowClear(a, k + 8) && b < 0x100 && k + 8 <= 56
    ensures Or(a, Shl(b, k)) == a + Doubled(b, k) && LowClear(Or(a, Shl(b, k)), k)
  {
    Pow2Bytes();
    ShlDoubles(b, k, 8);
    assert Pow2(8 + k) == Pow2(k + 8);
    OrIsSum(a, Shl(b, k), k + 8);
    LowClearLess(a, k, k + 8);
    LowClearSum(a, Shl(b, k), k);
  }

  /** The shift-and-or expressions are the base-256 values of their bytes. */
  lemma Be16Value(p: Bytes, i: nat)
    requires i + 2 <= |p|
    ensures Be16(p, i) == 0x100 * (p[i] as int) + p[i + 1] < 0x1_0000
  {
    Pow2Bytes();
    DoubledBytes(p[i]);
    ShlDoubles(p[i], 8, 8);
    OrIsSum(At(p, i, 8), p[i + 1], 8);
  }

  lemma Be32Value(p: Bytes, i: nat)
    requires i + 4 <= |p|
    ensures Be32(p, i) ==
      0x100_0000 * (p[i] as int) + 0x1_0000 * (p[i + 1] as int) + 0x100 * (p[i + 2] as int) + p[i + 3] < 0x1_0000_0000
  {
    hide Or, Shl, LowClear, Pow2, Doubled;
    Pow2Bytes();
    DoubledBytes(p[i]);
    DoubledBytes(p[i + 1]);
    DoubledBytes(p[i + 2]);
    ShlDoubles(p[i], 24, 8);
    AddByte(At(p, i, 24), p[i + 1], 16);
    AddByte(Or(At(p, i, 24), At(p, i + 1, 16)), p[i + 2], 8);
    OrIsSum(Or(Or(At(p, i, 24), At(p, i + 1, 16)), At(p, i + 2, 8)), p[i + 3], 8);
  }

  lemma Be48Value(p: Bytes, i: nat)
    requires i + 6 <= |p|
    ensures Be48(p, i) ==
      0x100_0000_0000 * (p[i] as int) + 0x1_0000_0000 * (p[i + 1] as int) + 0x100_0000 * (p[i + 2] as int)
      + 0x1_0000 * (p[i + 3] as int) + 0x100 * (p[i + 4] as int) + p[i + 5] < 0x1_0000_0000_0000
  {
    hide Or, Shl, LowClear, Pow2, Doubled;
    Pow2Bytes();
    forall j | i <= j < i + 5 { DoubledBytes(p[j]); }
    ShlDoubles(p[i], 40, 8);
    var a := At(p, i, 40);
    AddByte(a, p[i + 1], 32);
    var b := Or(a, At(p, i + 1, 32));
    AddByte(b, p[i + 2], 24);
    var c := Or(b, At(p, i + 2, 24));
    AddByte(c, p[i + 3], 16);
    var d := Or(c, At(p, i + 3, 16));
    AddByte(d, p[i + 4], 8);
    OrIsSum(Or(d, At(p, i + 4, 8)), p[i + 5], 8);
  }

  lemma Be64Value(p: Bytes, i: nat)
    requires i + 8 <= |p|
    ensures Be64(p, i) == 0x1_0000_0000 * Be32(p, i) + Be32(p, i + 4) < 0x1_0000_0000_0000_0000
  {
    hide Be32, Or, Shl, LowClear, Pow2, Doubled;
    DoubledBytes(Be32(p, i));
    Be32Value(p, i);
    Be32Value(p, i + 4);
    Pow2Bytes();
    ShlDoubles(Be32(p, i), 32, 32);
    OrIsSum(ShlNat(Be32(p, i), 32), Be32(p, i + 4), 32);
  }

  function Enc16(x: Uint16): Bytes { [x / 0x100, x % 0x100] }

  function Enc32(x: Uint32): Bytes { Enc16(x / 0x1_0000) + Enc16(x % 0x1_0000) }

  function Enc48(x: Uint48): Bytes { Enc16(x / 0x1_0000_0000) + Enc32(x % 0x1_0000_0000) }

  function Enc64(x: Uint64): Bytes { Enc32(x / 0x1_0000_0000) + Enc32(x % 0x1_0000_0000) }

  /** Each field decodes to what was encoded, wherever it stands. */
  lemma Field16(p: Bytes, i: nat, x: Uint16)
    requires i + 2 <= |p| && p[i..i + 2] == Enc16(x)
    ensures Be16(p, i) == x
  {
    Be16Value(p, i);
    assert p[i] == p[i..i + 2][0] && p[i + 1] == p[i..i + 2][1];
  }

  lemma Field32(p: Bytes, i: nat, x: Uint32)
    requires i + 4 <= |p| && p[i..i + 4] == Enc32(x)
    ensures Be32(p, i) == x
  {
    hide Be32;
    Be32Value(p, i);
    var e := Enc32(x);
    assert p[i] == p[i..i + 4][0] && p[i + 1] == p[i..i + 4][1];
    assert p[i + 2] == p[i..i + 4][2] && p[i + 3] == p[i..i + 4][3];
    assert e[0] == x / 0x1_0000 / 0x100 && e[1] == x / 0x1_0000 % 0x100;
    assert e[2] == x % 0x1_0000 / 0x100 && e[3] == x % 0x1_0000 % 0x100;
  }

  lemma Field48(p: Bytes, i: nat, x: Uint48)
    requires i + 6 <= |p| && p[i..i + 6] == Enc48(x)
    ensures Be48(p, i) == x
  {
    hide Be32, Be48;
    Be48Value(p, i);
    Be32Value(p, i + 2);
    assert p[i + 2..i + 6] == p[i..i + 6][2..] == Enc32(x % 0x1_0000_0000);
    Field32(p, i + 2, x % 0x1_0000_0000);
    assert p[i] == p[i..i + 6][0] && p[i + 1] == p[i..i + 6][1];
  }

  lemma Field64(p: Bytes, i: nat, x: Uint64)
    requires i + 8 <= |p| && p[i..i + 8] == Enc64(x)
    ensures Be64(p, i) == x
  {
    hide Be32, Be64, Enc32;
    Be64Value(p, i);
    assert p[i..i + 4] == p[i..i + 8][..4] == Enc32(x / 0x1_0000_0000) by { hide *; EncLength(x); }
    assert p[i + 4..i + 8] == p[i..i + 8][4..];
    Field32(p, i, x / 0x1_0000_0000);
    Field32(p, i + 4, x % 0x1_0000_0000);
  }

  lemma EncLength(x: Uint64)
    ensures |Enc64(x)| == 8 && Enc64(x)[..4] == Enc32(x / 0x1_0000_0000) && Enc64(x)[4..] == Enc32(x % 0x1_0000_0000)
  {
  }

  // ----- messages -----------------------------------------------------------------------

  /** What the parser hands to the handler. */
  datatype Event =
    | SystemEvent(ts: Uint48, code: Byte)
    | StockDirectory(locate: Uint16, ts: Uint48, stock: Bytes, category: Byte)
    | AddOrder(locate: Uint16, tracking: Uint16, ts: Uint48, ref: Uint64, side: Side, shares: Uint32, stock: Bytes,
               price: Uint32)
    | OrderExecuted(locate: Uint16, ts: Uint48, ref: Uint64, shares: Uint32, matchNo: Uint64)
    | OrderExecutedWithPrice(locate: Uint16, ts: Uint48, ref: Uint64, shares: Uint32, matchNo: Uint64, printable: bool,
                             price: Uint32)
    | OrderCancel(locate: Uint16, ts: Uint48, ref: Uint64, shares: Uint32)
    | OrderDelete(locate: Uint16, ts: Uint48, ref: Uint64)
    | OrderReplace(locate: Uint16, ts: Uint48, original: Uint64, ref: Uint64, shares: Uint32, price: Uint32)
    | Unhandled(kind: Byte, length: Uint16)

  const S: Byte := 0x53
  const R: Byte := 0x52
  const A: Byte := 0x41
  const F: Byte := 0x46
  const E: Byte := 0x45
  const C: Byte := 0x43
  const X: Byte := 0x58
  const D: Byte := 0x44
  const U: Byte := 0x55
  const B: Byte := 0x42
  const Y: Byte := 0x59
  const N: Byte := 0x4E

  /** The body length the fields read for a message type take; reading any less would run past the frame. */
  function BodyLength(kind: Byte): nat {
    if kind == S then 12
    else if kind == R then 20
    else if kind == A || kind == F then 36
    else if kind == E then 31
    else if kind == C then 36
    else if kind == X then 23
    else if kind == D then 19
    else if kind == U then 35
    else 1
  }

  predicate LongEnough(m: Bytes) {
    m != [] && BodyLength(m[0]) <= |m|
  }

  function Field2(m: Bytes, i: nat): Uint16
    requires i + 2 <= |m|
  {
    Be16Value(m, i);
    Be16(m, i)
  }

  function Field4(m: Bytes, i: nat): Uint32
    requires i + 4 <= |m|
  {
    Be32Value(m, i);
    Be32(m, i)
  }

  function Field6(m: Bytes, i: nat): Uint48
    requires i + 6 <= |m|
  {
    Be48Value(m, i);
    Be48(m, i)
  }

  function Field8(m: Bytes, i: nat): Uint64
    requires i + 8 <= |m|
  {
    Be64Value(m, i);
    Be64(m, i)
  }

  /** The switch of parse on one message body. */
  function Decode(m: Bytes): Event
    requires LongEnough(m) && |m| < 0x1_0000
  {
    var kind := m[0];
    if kind == S then SystemEvent(Field6(m, 5), m[11])
    else if kind == R then StockDirectory(Field2(m, 1), Field6(m, 5), m[11..19], m[19])
    else if kind == A || kind == F then
      AddOrder(Field2(m, 1), Field2(m, 3), Field6(m, 5), Field8(m, 11), if m[19] == B then Buy else Sell,
               Field4(m, 20), m[24..32], Field4(m, 32))
    else if kind == E then OrderExecuted(Field2(m, 1), Field6(m, 5), Field8(m, 11), Field4(m, 19), Field8(m, 23))
    else if kind == C then
      OrderExecutedWithPrice(Field2(m, 1), Field6(m, 5), Field8(m, 11), Field4(m, 19), Field8(m, 23), m[31] == Y,
          Field4(m, 32))
    else if kind == X then OrderCancel(Field2(m, 1), Field6(m, 5), Field8(m, 11), Field4(m, 19))
    else if kind == D then OrderDelete(Field2(m, 1), Field6(m, 5), Field8(m, 11))
    else if kind == U then
      OrderReplace(Field2(m, 1), Field6(m, 5), Field8(m, 11), Field8(m, 19), Field4(m, 27), Field4(m, 31))
    else Unhandled(kind, |m|)
  }

  // ----- the wire encoding -----------------------------------------------------------------

  /** A message as an exchange would send it: the event, the fields the parser skips, and trailing bytes. */
  datatype Message = Message(e: Event, locate: Uint16, tracking: Uint16, attributed: bool, tail: Bytes)

  predicate WellFormed(g: Message) {
    && |Body(g)| < 0x1_0000
    && match g.e
       case StockDirectory(_, _, stock, _) => |stock| == 8
       case AddOrder(_, _, _, _, _, _, stock, _) => |stock| == 8
       case Unhandled(kind, length) => kind !in {S, R, A, F, E, C, X, D, U} && length == 1 + |g.tail|
       case _ => true
  }

  /** Type, stock locate, tracking number, timestamp: the first eleven bytes of every handled message. */
  function Header(kind: Byte, locate: Uint16, tracking: Uint16, ts: Uint48): (h: Bytes)
    ensures |h| == 11
  {
    [kind] + Enc16(locate) + Enc16(tracking) + Enc48(ts)
  }

  function Body(g: Message): Bytes {
    match g.e
    case SystemEvent(ts, code) => Header(S, g.locate, g.tracking, ts) + [code] + g.tail
    case StockDirectory(locate, ts, stock, category) => Header(R, locate, g.tracking, ts) + stock + [category] + g.tail
    case AddOrder(locate, tracking, ts, ref, side, shares, stock, price) =>
      Header(if g.attributed then F else A, locate, tracking, ts) + Enc64(ref) + [if side.Buy? then B else S]
      + Enc32(shares) + stock + Enc32(price) + g.tail
    case OrderExecuted(locate, ts, ref, shares, matchNo) =>
      Header(E, locate, g.tracking, ts) + Enc64(ref) + Enc32(shares) + Enc64(matchNo) + g.tail
    case OrderExecutedWithPrice(locate, ts, ref, shares, matchNo, printable, price) =>
      Header(C, locate, g.tracking, ts) + Enc64(ref) + Enc32(shares) + Enc64(matchNo) + [if printable then Y else N]
      + Enc32(price) + g.tail
    case OrderCancel(locate, ts, ref, shares) => Header(X, locate, g.tracking, ts) + Enc64(ref) + Enc32(shares) + g.tail
    case OrderDelete(locate, ts, ref) => Header(D, locate, g.tracking, ts) + Enc64(ref) + g.tail
    case OrderReplace(locate, ts, original, ref, shares, price) =>
      Header(U, locate, g.tracking, ts) + Enc64(original) + Enc64(ref) + Enc32(shares) + Enc32(price) + g.tail
    case Unhandled(kind, _) => [kind] + g.tail
  }

  lemma HeaderFields(h: Bytes, rest: Bytes, kind: Byte, locate: Uint16, tracking: Uint16, ts: Uint48)
    requires h == Header(kind, locate, tracking, ts)
    ensures var m := h + rest; m[0] == kind && Field2(m, 1) == locate && Field2(m, 3) == tracking && Field6(m, 5) == ts
  {
    hide Be16, Be48, Enc16, Enc48;
    var m := h + rest;
    assert |Enc16(locate)| == 2 && |Enc16(tracking)| == 2 && |Enc48(ts)| == 6 by {
      EncLengths(locate, tracking, ts, 0, 0);
    }
    assert m[1..3] == Enc16(locate) && m[3..5] == Enc16(tracking) && m[5..11] == Enc48(ts);
    Field16(m, 1, locate);
    Field16(m, 3, tracking);
    Field48(m, 5, ts);
  }

  lemma EncLengths(a: Uint16, b: Uint16, c: Uint48, d: Uint32, e: Uint64)
    ensures |Enc16(a)| == 2 && |Enc16(b)| == 2 && |Enc48(c)| == 6 && |Enc32(d)| == 4 && |Enc64(e)| == 8
  {
  }

  lemma DecodeSystemEvent(g: Message)
    requires g.e.SystemEvent? && WellFormed(g)
    ensures LongEnough(Body(g)) && Decode(Body(g)) == g.e
  {
    hide Be16, Be32, Be48, Be64, Enc16, Enc32, Enc48, Enc64, Header;
    var m, e := Body(g), g.e;
    var h := Header(S, g.locate, g.tracking, e.ts);
    EncLengths(0, 0, 0, 0, 0);
    var rest := [e.code] + g.tail;
    assert m == h + rest;
    HeaderFields(h, rest, S, g.locate, g.tracking, e.ts);
    assert m[11..12] == [e.code];
    assert m[11] == m[11..12][0];
  }

  lemma DecodeStockDirectory(g: Message)
    requires g.e.StockDirectory? && WellFormed(g)
    ensures LongEnough(Body(g)) && Decode(Body(g)) == g.e
  {
    hide Be16, Be32, Be48, Be64, Enc16, Enc32, Enc48, Enc64, Header;
    var m, e := Body(g), g.e;
    var h := Header(R, e.locate, g.tracking, e.ts);
    EncLengths(0, 0, 0, 0, 0);
    var rest := e.stock + [e.category] + g.tail;
    assert m == h + rest;
    HeaderFields(h, rest, R, e.locate, g.tracking, e.ts);
    assert m[11..19] == e.stock;
    assert m[19..20] == [e.category];
    assert m[19] == m[19..20][0];
  }

  lemma DecodeAddOrder(g: Message)
    requires g.e.AddOrder? && WellFormed(g)
    ensures LongEnough(Body(g)) && Decode(Body(g)) == g.e
  {
    hide Be16, Be32, Be48, Be64, Enc16, Enc32, Enc48, Enc64, Header;
    var m, e := Body(g), g.e;
    var h := Header(if g.attributed then F else A, e.locate, e.tracking, e.ts);
    EncLengths(0, 0, 0, e.shares, e.ref);
    EncLengths(0, 0, 0, e.price, 0);
    var rest := Enc64(e.ref) + [if e.side.Buy? then B else S] + Enc32(e.shares) + e.stock + Enc32(e.price) + g.tail;
    assert m == h + rest;
    HeaderFields(h, rest, if g.attributed then F else A, e.locate, e.tracking, e.ts);
    assert m[11..19] == Enc64(e.ref);
    Field64(m, 11, e.ref);
    assert m[19..20] == [if e.side.Buy? then B else S];
    assert m[19] == m[19..20][0];
    assert m[20..24] == Enc32(e.shares);
    Field32(m, 20, e.shares);
    assert m[24..32] == e.stock;
    assert m[32..36] == Enc32(e.price);
    Field32(m, 32, e.price);
  }

  lemma DecodeOrderExecuted(g: Message)
    requires g.e.OrderExecuted? && WellFormed(g)
    ensures LongEnough(Body(g)) && Decode(Body(g)) == g.e
  {
    hide Be16, Be32, Be48, Be64, Enc16, Enc32, Enc48, Enc64, Header;
    var m, e := Body(g), g.e;
    var h := Header(E, e.locate, g.tracking, e.ts);
    EncLengths(0, 0, 0, e.shares, e.ref);
    EncLengths(0, 0, 0, 0, e.matchNo);
    var rest := Enc64(e.ref) + Enc32(e.shares) + Enc64(e.matchNo) + g.tail;
    assert m == h + rest;
    HeaderFields(h, rest, E, e.locate, g.tracking, e.ts);
    assert m[11..19] == Enc64(e.ref);
    Field64(m, 11, e.ref);
    assert m[19..23] == Enc32(e.shares);
    Field32(m, 19, e.shares);
    assert m[23..31] == Enc64(e.matchNo);
    Field64(m, 23, e.matchNo);
  }

  lemma DecodeOrderExecutedWithPrice(g: Message)
    requires g.e.OrderExecutedWithPrice? && WellFormed(g)
    ensures LongEnough(Body(g)) && Decode(Body(g)) == g.e
  {
    hide Be16, Be32, Be48, Be64, Enc16, Enc32, Enc48, Enc64, Header;
    var m, e := Body(g), g.e;
    var h := Header(C, e.locate, g.tracking, e.ts);
    EncLengths(0, 0, 0, e.shares, e.ref);
    EncLengths(0, 0, 0, 0, e.matchNo);
    EncLengths(0, 0, 0, e.price, 0);
    var rest := Enc64(e.ref) + Enc32(e.shares) + Enc64(e.matchNo) + [if e.printable then Y else N]
      + Enc32(e.price) + g.tail;
    assert m == h + rest;
    HeaderFields(h, rest, C, e.locate, g.tracking, e.ts);
    assert m[11..19] == Enc64(e.ref);
    Field64(m, 11, e.ref);
    assert m[19..23] == Enc32(e.shares);
    Field32(m, 19, e.shares);
    assert m[23..31] == Enc64(e.matchNo);
    Field64(m, 23, e.matchNo);
    assert m[31..32] == [if e.printable then Y else N];
    assert m[31] == m[31..32][0];
    assert m[32..36] == Enc32(e.price);
    Field32(m, 32, e.price);
  }

  lemma DecodeOrderCancel(g: Message)
    requires g.e.OrderCancel? && WellFormed(g)
    ensures LongEnough(Body(g)) && Decode(Body(g)) == g.e
  {
    hide Be16, Be32, Be48, Be64, Enc16, Enc32, Enc48, Enc64, Header;
    var m, e := Body(g), g.e;
    var h := Header(X, e.locate, g.tracking, e.ts);
    EncLengths(0, 0, 0, e.shares, e.ref);
    var rest := Enc64(e.ref) + Enc32(e.shares) + g.tail;
    assert m == h + rest;
    HeaderFields(h, rest, X, e.locate, g.tracking, e.ts);
    assert m[11..19] == Enc64(e.ref);
    Field64(m, 11, e.ref);
    assert m[19..23] == Enc32(e.shares);
    Field32(m, 19, e.shares);
  }

  lemma DecodeOrderDelete(g: Message)
    requires g.e.OrderDelete? && WellFormed(g)
    ensures LongEnough(Body(g)) && Decode(Body(g)) == g.e
  {
    hide Be16, Be32, Be48, Be64, Enc16, Enc32, Enc48, Enc64, Header;
    var m, e := Body(g), g.e;
    var h := Header(D, e.locate, g.tracking, e.ts);
    EncLengths(0, 0, 0, 0, e.ref);
    var rest := Enc64(e.ref) + g.tail;
    assert m == h + rest;
    HeaderFields(h, rest, D, e.locate, g.tracking, e.ts);
    assert m[11..19] == Enc64(e.ref);
    Field64(m, 11, e.ref);
  }

  lemma DecodeOrderReplace(g: Message)
    requires g.e.OrderReplace? && WellFormed(g)
    ensures LongEnough(Body(g)) && Decode(Body(g)) == g.e
  {
    hide Be16, Be32, Be48, Be64, Enc16, Enc32, Enc48, Enc64, Header;
    var m, e := Body(g), g.e;
    var h := Header(U, e.locate, g.tracking, e.ts);
    EncLengths(0, 0, 0, e.shares, e.original);
    EncLengths(0, 0, 0, 0, e.ref);
    EncLengths(0, 0, 0, e.price, 0);
    var rest := Enc64(e.original) + Enc64(e.ref) + Enc32(e.shares) + Enc32(e.price) + g.tail;
    assert m == h + rest;
    HeaderFields(h, rest, U, e.locate, g.tracking, e.ts);
    assert m[11..19] == Enc64(e.original);
    Field64(m, 11, e.original);
    assert m[19..27] == Enc64(e.ref);
    Field64(m, 19, e.ref);
    assert m[27..31] == Enc32(e.shares);
    Field32(m, 27, e.shares);
    assert m[31..35] == Enc32(e.price);
    Field32(m, 31, e.price);
  }

  /** Decoding the body of a well-formed message gives its event back. */
  lemma DecodeBody(g: Message)
    requires WellFormed(g)
    ensures LongEnough(Body(g)) && Decode(Body(g)) == g.e
  {
    hide Decode, Body, LongEnough, WellFormed;
    match g.e
    case SystemEvent(_, _) => DecodeSystemEvent(g);
    case StockDirectory(_, _, _, _) => DecodeStockDirectory(g);
    case AddOrder(_, _, _, _, _, _, _, _) => DecodeAddOrder(g);
    case OrderExecuted(_, _, _, _, _) => DecodeOrderExecuted(g);
    case OrderExecutedWithPrice(_, _, _, _, _, _, _) => DecodeOrderExecutedWithPrice(g);
    case OrderCancel(_, _, _, _) => DecodeOrderCancel(g);
    case OrderDelete(_, _, _) => DecodeOrderDelete(g);
    case OrderReplace(_, _, _, _, _, _) => DecodeOrderReplace(g);
    case Unhandled(_, _) => DecodeUnhandled(g);
  }

  lemma DecodeUnhandled(g: Message)
    requires g.e.Unhandled? && WellFormed(g)
    ensures LongEnough(Body(g)) && Decode(Body(g)) == g.e
  {
  }

  // ----- framing ------------------------------------------------------------------------------

  /** A complete frame stands at the front: a 2-byte length and that many bytes of body. */
  predicate Framed(data: Bytes) {
    |data| >= 2 && 2 + Field2(data, 0) <= |data|
  }

  function FrontBody(data: Bytes): Bytes
    requires Framed(data)
  {
    data[2..2 + Field2(data, 0)]
  }

  function Behind(data: Bytes): Bytes
    requires Framed(data)
  {
    data[2 + Field2(data, 0)..]
  }

  /** No complete frame is shorter than the fields read for its type. */
  predicate Readable(data: Bytes)
    decreases |data|
  {
    Framed(data) ==> LongEnough(FrontBody(data)) && Readable(Behind(data))
  }

  /** The events of a stream, up to its first truncated frame. */
  function Events(data: Bytes): seq<Event>
    requires Readable(data)
    decreases |data|
  {
    if !Framed(data) then [] else [Decode(FrontBody(data))] + Events(Behind(data))
  }

  /** The stream consists of complete frames only. */
  predicate Whole(data: Bytes)
    decreases |data|
  {
    data == [] || (Framed(data) && Whole(Behind(data)))
  }

  /** What stands at pos: a complete frame and the rest of the stream, or the truncated end. */
  lemma EventsAt(data: Bytes, pos: nat)
    requires pos + 2 <= |data| && Readable(data[pos..])
    ensures var body := pos + 2;
      var next := body + Field2(data, pos);
      if next <= |data| then
        && LongEnough(data[body..next]) && Readable(data[next..])
        && Events(data[pos..]) == [Decode(data[body..next])] + Events(data[next..])
      else Events(data[pos..]) == []
  {
    hide Decode, Field2, LongEnough;
    var here, body := data[pos..], pos + 2;
    var next := body + Field2(data, pos);
    FieldBehind(data, pos);
    if next <= |data| {
      assert FrontBody(here) == data[body..next];
      assert Behind(here) == data[next..];
    }
  }

  /** parse: walk the frames, dispatch each, stop at the first truncated one, return the count. */
  method Parse(data: Bytes) returns (events: seq<Event>, count: nat)
    requires Readable(data)
    ensures events == Events(data) && count == |events|
  {
    hide Decode, Field2, LongEnough, Readable, Events;
    var pos := 0;
    events, count := [], 0;
    assert data[0..] == data;
    while pos + 2 <= |data|
      invariant pos <= |data| && count == |events|
      invariant Readable(data[pos..])
      invariant Events(data) == events + Events(data[pos..])
      decreases |data| - pos
    {
      EventsAt(data, pos);
      var length := Field2(data, pos);
      pos := pos + 2;
      if pos + length > |data| { return; }
      events := events + [Decode(data[pos..pos + length])];
      pos := pos + length;
      count := count + 1;
    }
    NoEvents(data[pos..]);
  }

  lemma NoEvents(data: Bytes)
    requires |data| < 2
    ensures Readable(data) && Events(data) == []
  {
  }

  lemma FieldBehind(data: Bytes, pos: nat)
    requires pos + 2 <= |data|
    ensures Field2(data, pos) == Field2(data[pos..], 0)
  {
    Be16Value(data, pos);
    Be16Value(data[pos..], 0);
  }

  lemma FieldFront(a: Bytes, b: Bytes)
    requires |a| >= 2
    ensures Field2(a + b, 0) == Field2(a, 0)
  {
    Be16Value(a, 0);
    Be16Value(a + b, 0);
  }

  function Frame(g: Message): Bytes
    requires WellFormed(g)
  {
    Enc16(|Body(g)|) + Body(g)
  }

  function Stream(gs: seq<Message>): Bytes
    requires forall i :: 0 <= i < |gs| ==> WellFormed(gs[i])
  {
    if gs == [] then [] else Frame(gs[0]) + Stream(gs[1..])
  }

  function EventsOf(gs: seq<Message>): seq<Event> {
    if gs == [] then [] else [gs[0].e] + EventsOf(gs[1..])
  }

  lemma FrameFront(g: Message, rest: Bytes)
    requires WellFormed(g)
    ensures var data := Frame(g) + rest; Framed(data) && FrontBody(data) == Body(g) && Behind(data) == rest
  {
    hide Body, Be16;
    var data, n := Frame(g) + rest, |Body(g)|;
    assert data[0..2] == Enc16(n);
    Field16(data, 0, n);
  }

  /** Parsing the framed encoding of any well-formed messages yields exactly their events. */
  lemma {:induction false} ParseStream(gs: seq<Message>)
    requires forall i :: 0 <= i < |gs| ==> WellFormed(gs[i])
    ensures Readable(Stream(gs)) && Whole(Stream(gs)) && Events(Stream(gs)) == EventsOf(gs)
  {
    hide WellFormed, Decode, Body, LongEnough, Frame;
    if gs != [] {
      ParseStream(gs[1..]);
      FrameFront(gs[0], Stream(gs[1..]));
      DecodeBody(gs[0]);
    }
  }

  /** A stream of whole frames followed by another: the parse is the one parse after the other. */
  lemma {:induction false} ParseConcat(a: Bytes, b: Bytes)
    requires Whole(a) && Readable(a) && Readable(b)
    ensures Readable(a + b) && Events(a + b) == Events(a) + Events(b)
    decreases |a|
  {
    hide LongEnough, Decode, Field2;
    if a == [] {
      assert a + b == b;
    } else {
      FieldFront(a, b);
      assert FrontBody(a + b) == FrontBody(a);
      assert Behind(a + b) == Behind(a) + b;
      ParseConcat(Behind(a), b);
    }
  }

  /** Cutting a stream anywhere loses events only from the end. */
  lemma {:induction false} ParseTruncated(data: Bytes, n: nat)
    requires Readable(data) && n <= |data|
    ensures Readable(data[..n]) && Events(data[..n]) <= Events(data)
    decreases |data|
  {
    hide LongEnough, Decode, Field2;
    var cut := data[..n];
    if n >= 2 {
      assert cut + data[n..] == data;
      FieldFront(cut, data[n..]);
      if Framed(cut) {
        assert FrontBody(cut) == FrontBody(data);
        var k := 2 + Field2(data, 0);
        assert Behind(cut) == Behind(data)[..n - k];
        ParseTruncated(Behind(data), n - k);
      }
    }
  }
}
