/** The bytes on the wire, one by one: what the parser makes of any frame body, and where the encoding puts what, with
    the codes and offsets of section 4 of NASDAQ TotalView-ITCH 5.0 written out. */
module ItchWire {
  import opened LobTypes
  import opened Itch

  // ----- reading ------------------------------------------------------------------

  /** The big-endian value of the n bytes from i on. */
  function Big(m: Bytes, i: nat, n: nat): nat
    requires i + n <= |m|
  {
    if n == 0 then 0 else 0x100 * Big(m, i, n - 1) + m[i + n - 1]
  }

  lemma BigFour(m: Bytes, i: nat)
    requires i + 4 <= |m|
    ensures Be32(m, i) == Big(m, i, 4)
  {
    hide Be32;
    Be32Value(m, i);
    assert Big(m, i, 1) == m[i] && Big(m, i, 2) == 0x100 * Big(m, i, 1) + m[i + 1];
    assert Big(m, i, 3) == 0x100 * Big(m, i, 2) + m[i + 2];
  }

  lemma FieldsAreBig(m: Bytes, i: nat)
    ensures i + 2 <= |m| ==> Field2(m, i) == Big(m, i, 2)
    ensures i + 4 <= |m| ==> Field4(m, i) == Big(m, i, 4)
    ensures i + 6 <= |m| ==> Field6(m, i) == Big(m, i, 6)
    ensures i + 8 <= |m| ==> Field8(m, i) == Big(m, i, 8)
  {
    hide Be16, Be32, Be48, Be64;
    if i + 2 <= |m| {
      Be16Value(m, i);
      assert Big(m, i, 1) == m[i];
    }
    if i + 4 <= |m| { BigFour(m, i); }
    if i + 6 <= |m| {
      Be48Value(m, i);
      Be32Value(m, i);
      assert Big(m, i, 5) == 0x100 * Big(m, i, 4) + m[i + 4];
    }
    if i + 8 <= |m| {
      Be64Value(m, i);
      BigFour(m, i + 4);
      BigEight(m, i);
    }
  }

  lemma BigEight(m: Bytes, i: nat)
    requires i + 8 <= |m|
    ensures Big(m, i, 8) == 0x1_0000_0000 * Big(m, i, 4) + Big(m, i + 4, 4)
  {
    assert Big(m, i, 5) == 0x100 * Big(m, i, 4) + m[i + 4];
    assert Big(m, i, 6) == 0x100 * Big(m, i, 5) + m[i + 5];
    assert Big(m, i, 7) == 0x100 * Big(m, i, 6) + m[i + 6];
    assert Big(m, i + 4, 1) == m[i + 4] && Big(m, i + 4, 2) == 0x100 * Big(m, i + 4, 1) + m[i + 5];
    assert Big(m, i + 4, 3) == 0x100 * Big(m, i + 4, 2) + m[i + 6];
  }

  lemma BigFits(m: Bytes, i: nat)
    ensures i + 2 <= |m| ==> Big(m, i, 2) < 0x1_0000
    ensures i + 4 <= |m| ==> Big(m, i, 4) < 0x1_0000_0000
    ensures i + 6 <= |m| ==> Big(m, i, 6) < 0x1_0000_0000_0000
    ensures i + 8 <= |m| ==> Big(m, i, 8) < 0x1_0000_0000_0000_0000
  {
    FieldsAreBig(m, i);
  }

  function U16(m: Bytes, i: nat): Uint16 requires i + 2 <= |m| { BigFits(m, i); Big(m, i, 2) }

  function U32(m: Bytes, i: nat): Uint32 requires i + 4 <= |m| { BigFits(m, i); Big(m, i, 4) }

  function U48(m: Bytes, i: nat): Uint48 requires i + 6 <= |m| { BigFits(m, i); Big(m, i, 6) }

  function U64(m: Bytes, i: nat): Uint64 requires i + 8 <= |m| { BigFits(m, i); Big(m, i, 8) }

  /** Every field the parser reads is the big-endian value of its bytes. */
  lemma FieldsRead(m: Bytes, i: nat)
    ensures i + 2 <= |m| ==> Field2(m, i) == U16(m, i)
    ensures i + 4 <= |m| ==> Field4(m, i) == U32(m, i)
    ensures i + 6 <= |m| ==> Field6(m, i) == U48(m, i)
    ensures i + 8 <= |m| ==> Field8(m, i) == U64(m, i)
  {
    FieldsAreBig(m, i);
  }

  /** How many bytes of a frame body the parser reads, by its first byte. */
  lemma BytesRead(m: Bytes)
    requires m != []
    ensures LongEnough(m) <==>
      && (m[0] == 'S' as int ==> |m| >= 12) && (m[0] == 'R' as int ==> |m| >= 20)
      && (m[0] == 'A' as int || m[0] == 'F' as int ==> |m| >= 36)
      && (m[0] == 'E' as int ==> |m| >= 31) && (m[0] == 'C' as int ==> |m| >= 36)
      && (m[0] == 'X' as int ==> |m| >= 23) && (m[0] == 'D' as int ==> |m| >= 19)
      && (m[0] == 'U' as int ==> |m| >= 35)
  {
  }

  /** What the parser makes of a directory message, an add with or without attribution, and a system event. */
  lemma DecodesOpening(m: Bytes)
    requires LongEnough(m) && |m| < 0x1_0000
    ensures m[0] == 'S' as int ==> |m| >= 12 && Decode(m) == SystemEvent(U48(m, 5), m[11])
    ensures m[0] == 'R' as int ==>
      |m| >= 20 && Decode(m) == StockDirectory(U16(m, 1), U48(m, 5), m[11..19], m[19])
    ensures m[0] == 'A' as int || m[0] == 'F' as int ==>
      && |m| >= 36
      && Decode(m) == AddOrder(U16(m, 1), U16(m, 3), U48(m, 5), U64(m, 11),
                               if m[19] == 'B' as int then Buy else Sell, U32(m, 20), m[24..32], U32(m, 32))
  {
    hide Field2, Field4, Field6, Field8, U16, U32, U48, U64;
    FieldsRead(m, 1); FieldsRead(m, 3); FieldsRead(m, 5); FieldsRead(m, 11);
    FieldsRead(m, 20); FieldsRead(m, 32);
  }

  /** What the parser makes of the two execution messages. */
  lemma DecodesExecution(m: Bytes)
    requires LongEnough(m) && |m| < 0x1_0000
    ensures m[0] == 'E' as int ==>
      && |m| >= 31
      && Decode(m) == OrderExecuted(U16(m, 1), U48(m, 5), U64(m, 11), U32(m, 19), U64(m, 23))
    ensures m[0] == 'C' as int ==>
      && |m| >= 36
      && Decode(m) == OrderExecutedWithPrice(U16(m, 1), U48(m, 5), U64(m, 11), U32(m, 19), U64(m, 23),
                                             m[31] == 'Y' as int, U32(m, 32))
  {
    hide Field2, Field4, Field6, Field8, U16, U32, U48, U64;
    FieldsRead(m, 1); FieldsRead(m, 5); FieldsRead(m, 11); FieldsRead(m, 19); FieldsRead(m, 23); FieldsRead(m, 32);
  }

  /** What the parser makes of the messages that take shares or orders away or replace them. */
  lemma DecodesChange(m: Bytes)
    requires LongEnough(m) && |m| < 0x1_0000
    ensures m[0] == 'X' as int ==>
      && |m| >= 23
      && Decode(m) == OrderCancel(U16(m, 1), U48(m, 5), U64(m, 11), U32(m, 19))
    ensures m[0] == 'D' as int ==>
      |m| >= 19 && Decode(m) == OrderDelete(U16(m, 1), U48(m, 5), U64(m, 11))
    ensures m[0] == 'U' as int ==>
      && |m| >= 35
      && Decode(m) == OrderReplace(U16(m, 1), U48(m, 5), U64(m, 11), U64(m, 19), U32(m, 27),
                                   U32(m, 31))
  {
    hide Field2, Field4, Field6, Field8, U16, U32, U48, U64;
    FieldsRead(m, 1); FieldsRead(m, 5); FieldsRead(m, 11); FieldsRead(m, 19); FieldsRead(m, 27); FieldsRead(m, 31);
  }

  lemma DecodesOther(m: Bytes)
    requires LongEnough(m) && |m| < 0x1_0000
    requires m[0] != 'S' as int && m[0] != 'R' as int && m[0] != 'A' as int && m[0] != 'F' as int
    requires m[0] != 'E' as int && m[0] != 'C' as int && m[0] != 'X' as int && m[0] != 'D' as int && m[0] != 'U' as int
    ensures Decode(m) == Unhandled(m[0], |m|)
  {
  }

  // ----- writing ----------------------------------------------------------------------

  /** The header of a message starting with this byte. */
  ghost predicate Heads(m: Bytes, code: char, locate: Uint16, tracking: Uint16, ts: Uint48) {
    |m| >= 11 && m[0] == code as int && m[1..3] == Enc16(locate) && m[3..5] == Enc16(tracking) && m[5..11] == Enc48(ts)
  }

  lemma HeaderLayout(h: Bytes, rest: Bytes, kind: Byte, code: char, locate: Uint16, tracking: Uint16, ts: Uint48)
    requires h == Header(kind, locate, tracking, ts) && kind == code as int
    ensures Heads(h + rest, code, locate, tracking, ts)
  {
    hide Enc16, Enc48;
    EncLengths(locate, tracking, ts, 0, 0);
  }

  lemma SystemEventLayout(g: Message)
    requires g.e.SystemEvent?
    ensures var m := Body(g); Heads(m, 'S', g.locate, g.tracking, g.e.ts) && m[11..] == [g.e.code] + g.tail
  {
    hide Enc16, Enc48, Header;
    var h := Header(S, g.locate, g.tracking, g.e.ts);
    HeaderLayout(h, [g.e.code] + g.tail, S, 'S', g.locate, g.tracking, g.e.ts);
    assert Body(g) == h + ([g.e.code] + g.tail);
  }

  lemma StockDirectoryLayout(g: Message)
    requires g.e.StockDirectory? && |g.e.stock| == 8
    ensures var m := Body(g);
      && Heads(m, 'R', g.e.locate, g.tracking, g.e.ts) && |m| >= 20
      && m[11..19] == g.e.stock && m[19] == g.e.category && m[20..] == g.tail
  {
    hide Enc16, Enc48, Header;
    var h, rest := Header(R, g.e.locate, g.tracking, g.e.ts), g.e.stock + [g.e.category] + g.tail;
    HeaderLayout(h, rest, R, 'R', g.e.locate, g.tracking, g.e.ts);
    assert Body(g) == h + rest;
  }

  /** The 19 bytes all messages about an order start with. */
  lemma RefLayout(m: Bytes, h: Bytes, ref: Uint64, rest: Bytes)
    requires m == h + Enc64(ref) + rest && |h| == 11
    ensures |m| == 19 + |rest| && m[11..19] == Enc64(ref) && m[19..] == rest
  {
    hide Enc64;
    EncLengths(0, 0, 0, 0, ref);
  }

  /** Where the parts of the fixed middle of the two longest messages stand. */
  lemma FourParts(m: Bytes, a: Bytes, b: Bytes, c: Bytes, d: Bytes, tail: Bytes)
    requires |m| >= 19 && m[19..] == a + b + c + d + tail
    ensures var i := 19 + |a|;
      var j := i + |b|;
      var k := j + |c|;
      var l := k + |d|;
      && |m| >= l && m[19..i] == a && m[i..j] == b && m[j..k] == c && m[k..l] == d && m[l..] == tail
  {
    var pre := m[..19];
    assert m == pre + m[19..];
    Grouped(pre, a, b, c, d, tail);
    Piece(m, pre, a, b + c + d + tail);
    Piece(m, pre + a, b, c + d + tail);
    Piece(m, pre + a + b, c, d + tail);
    Piece(m, pre + a + b + c, d, tail);
  }

  lemma Piece(m: Bytes, p: Bytes, x: Bytes, q: Bytes)
    requires m == p + x + q
    ensures m[|p|..|p| + |x|] == x && m[|p| + |x|..] == q
  {
  }

  lemma Together(x: Bytes, y: Bytes, z: Bytes)
    ensures x + (y + z) == x + y + z
  {
  }

  /** Concatenation any way round. */
  lemma Grouped(p: Bytes, a: Bytes, b: Bytes, c: Bytes, d: Bytes, t: Bytes)
    ensures p + (a + b + c + d + t) == p + a + b + c + d + t
    ensures p + a + (b + c + d + t) == p + a + b + c + d + t
    ensures p + a + b + (c + d + t) == p + a + b + c + d + t
    ensures p + a + b + c + (d + t) == p + a + b + c + d + t
  {
  }

  lemma AddOrderLayout(g: Message)
    requires g.e.AddOrder? && |g.e.stock| == 8
    ensures var m, e := Body(g), g.e;
      && Heads(m, if g.attributed then 'F' else 'A', e.locate, e.tracking, e.ts) && |m| >= 36
      && m[11..19] == Enc64(e.ref) && (m[19] == 0x42 <==> e.side.Buy?) && (m[19] == 0x53 <==> e.side.Sell?)
      && m[20..24] == Enc32(e.shares) && m[24..32] == e.stock && m[32..36] == Enc32(e.price) && m[36..] == g.tail
  {
    hide Enc16, Enc32, Enc48, Enc64, Header;
    var m, e, kind := Body(g), g.e, if g.attributed then F else A;
    var h, side := Header(kind, e.locate, e.tracking, e.ts), [if e.side.Buy? then B else S];
    var rest := side + Enc32(e.shares) + e.stock + Enc32(e.price) + g.tail;
    EncLengths(0, 0, 0, e.shares, e.ref);
    EncLengths(0, 0, 0, e.price, e.ref);
    Grouped(h + Enc64(e.ref), side, Enc32(e.shares), e.stock, Enc32(e.price), g.tail);
    Together(h, Enc64(e.ref), rest);
    HeaderLayout(h, Enc64(e.ref) + rest, kind, if g.attributed then 'F' else 'A', e.locate, e.tracking, e.ts);
    RefLayout(m, h, e.ref, rest);
    FourParts(m, side, Enc32(e.shares), e.stock, Enc32(e.price), g.tail);
    assert m[19] == m[19..20][0];
  }

  lemma OrderExecutedLayout(g: Message)
    requires g.e.OrderExecuted?
    ensures var m, e := Body(g), g.e;
      && Heads(m, 'E', e.locate, g.tracking, e.ts) && |m| >= 31
      && m[11..19] == Enc64(e.ref) && m[19..23] == Enc32(e.shares) && m[23..31] == Enc64(e.matchNo) && m[31..] == g.tail
  {
    hide Enc16, Enc32, Enc48, Enc64, Header;
    var m, e := Body(g), g.e;
    var h, rest := Header(E, e.locate, g.tracking, e.ts), Enc32(e.shares) + Enc64(e.matchNo) + g.tail;
    EncLengths(0, 0, 0, e.shares, e.matchNo);
    assert m == h + (Enc64(e.ref) + rest) == h + Enc64(e.ref) + rest;
    HeaderLayout(h, Enc64(e.ref) + rest, E, 'E', e.locate, g.tracking, e.ts);
    RefLayout(m, h, e.ref, rest);
    assert m[19..23] == rest[..4] && m[23..31] == rest[4..12] && m[31..] == rest[12..];
  }

  lemma OrderExecutedWithPriceLayout(g: Message)
    requires g.e.OrderExecutedWithPrice?
    ensures var m, e := Body(g), g.e;
      && Heads(m, 'C', e.locate, g.tracking, e.ts) && |m| >= 36
      && m[11..19] == Enc64(e.ref) && m[19..23] == Enc32(e.shares) && m[23..31] == Enc64(e.matchNo)
      && (m[31] == 0x59 <==> e.printable) && (m[31] == 0x4E <==> !e.printable)
      && m[32..36] == Enc32(e.price) && m[36..] == g.tail
  {
    hide Enc16, Enc32, Enc48, Enc64, Header;
    var m, e := Body(g), g.e;
    var h, flag := Header(C, e.locate, g.tracking, e.ts), [if e.printable then Y else N];
    var rest := Enc32(e.shares) + Enc64(e.matchNo) + flag + Enc32(e.price) + g.tail;
    EncLengths(0, 0, 0, e.shares, e.matchNo);
    EncLengths(0, 0, 0, e.price, e.matchNo);
    Grouped(h + Enc64(e.ref), Enc32(e.shares), Enc64(e.matchNo), flag, Enc32(e.price), g.tail);
    Together(h, Enc64(e.ref), rest);
    HeaderLayout(h, Enc64(e.ref) + rest, C, 'C', e.locate, g.tracking, e.ts);
    RefLayout(m, h, e.ref, rest);
    FourParts(m, Enc32(e.shares), Enc64(e.matchNo), flag, Enc32(e.price), g.tail);
    assert m[31] == m[31..32][0];
  }

  lemma OrderCancelLayout(g: Message)
    requires g.e.OrderCancel?
    ensures var m, e := Body(g), g.e;
      && Heads(m, 'X', e.locate, g.tracking, e.ts) && |m| >= 23
      && m[11..19] == Enc64(e.ref) && m[19..23] == Enc32(e.shares) && m[23..] == g.tail
  {
    hide Enc16, Enc32, Enc48, Enc64, Header;
    var m, e := Body(g), g.e;
    var h, rest := Header(X, e.locate, g.tracking, e.ts), Enc32(e.shares) + g.tail;
    EncLengths(0, 0, 0, e.shares, 0);
    assert m == h + (Enc64(e.ref) + rest) == h + Enc64(e.ref) + rest;
    HeaderLayout(h, Enc64(e.ref) + rest, X, 'X', e.locate, g.tracking, e.ts);
    RefLayout(m, h, e.ref, rest);
    assert m[19..23] == rest[..4] && m[23..] == rest[4..];
  }

  lemma OrderDeleteLayout(g: Message)
    requires g.e.OrderDelete?
    ensures var m, e := Body(g), g.e;
      Heads(m, 'D', e.locate, g.tracking, e.ts) && |m| >= 19 && m[11..19] == Enc64(e.ref) && m[19..] == g.tail
  {
    hide Enc16, Enc32, Enc48, Enc64, Header;
    var m, e := Body(g), g.e;
    var h := Header(D, e.locate, g.tracking, e.ts);
    assert m == h + (Enc64(e.ref) + g.tail) == h + Enc64(e.ref) + g.tail;
    HeaderLayout(h, Enc64(e.ref) + g.tail, D, 'D', e.locate, g.tracking, e.ts);
    RefLayout(m, h, e.ref, g.tail);
  }

  lemma OrderReplaceLayout(g: Message)
    requires g.e.OrderReplace?
    ensures var m, e := Body(g), g.e;
      && Heads(m, 'U', e.locate, g.tracking, e.ts) && |m| >= 35
      && m[11..19] == Enc64(e.original) && m[19..27] == Enc64(e.ref)
      && m[27..31] == Enc32(e.shares) && m[31..35] == Enc32(e.price) && m[35..] == g.tail
  {
    hide Enc16, Enc32, Enc48, Enc64, Header;
    var m, e := Body(g), g.e;
    var h, rest := Header(U, e.locate, g.tracking, e.ts), Enc64(e.ref) + Enc32(e.shares) + Enc32(e.price) + g.tail;
    EncLengths(0, 0, 0, e.shares, e.ref);
    EncLengths(0, 0, 0, e.price, e.ref);
    assert m == h + (Enc64(e.original) + rest) == h + Enc64(e.original) + rest;
    HeaderLayout(h, Enc64(e.original) + rest, U, 'U', e.locate, g.tracking, e.ts);
    RefLayout(m, h, e.original, rest);
    assert m[19..27] == rest[..8] && m[27..31] == rest[8..12] && m[31..35] == rest[12..16] && m[35..] == rest[16..];
  }

  /** A frame is the length of the body in two bytes, the high one first, and the body. */
  lemma FrameLayout(g: Message)
    requires WellFormed(g)
    ensures var f, n := Frame(g), |Body(g)|;
      |f| == n + 2 && f[0] == n / 256 && f[1] == n % 256 && f[2..] == Body(g)
  {
    hide Body;
  }

  /** The complete frames of a stream, as the parser cuts them: two bytes of length, then the body. */
  lemma FrontFrame(data: Bytes)
    ensures Framed(data) <==> |data| >= 2 && 2 + 256 * (data[0] as int) + data[1] <= |data|
    ensures Framed(data) ==>
      var n := 256 * (data[0] as int) + data[1]; FrontBody(data) == data[2..2 + n] && Behind(data) == data[2 + n..]
  {
    if |data| >= 2 { Be16Value(data, 0); }
  }
}
