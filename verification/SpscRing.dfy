/** include/lob/spsc_ring.hpp: the lock-free ring as a transition system of its two threads, and as the
    class either thread runs alone. */
module SpscRings {
  import opened Words
  import opened LobTypes

  // ----- cursor arithmetic -----------------------------------------------------------

  /** Any multiple of the capacity that is a power of two is a period of the slots. */
  lemma {:induction false} MaskedPeriod(x: nat, k: nat, n: nat)
    ensures Masked(x + Pow2(k + n), Pow2(k)) == Masked(x, Pow2(k))
    decreases n
  {
    if n > 0 {
      assert Pow2(k + n) == Pow2(k + n - 1) + Pow2(k + n - 1);
      MaskedPeriod(x, k, n - 1);
      MaskedPeriod(x + Pow2(k + n - 1), k, n - 1);
    }
  }

  /** A wrapped cursor selects the same slot as the unbounded one. */
  lemma {:induction false} SlotOfWrapped(x: nat, k: nat)
    requires k <= 64
    ensures Masked(Wrap64(x), Pow2(k)) == Masked(x, Pow2(k))
  {
    hide Masked, Pow2;
    Pow2Word();
    if x >= WORD {
      SlotOfWrapped(x - WORD, k);
      MaskedPeriod(x - WORD, k, 64 - k);
      assert Wrap64(x) == Wrap64(x - WORD);
    }
  }

  lemma {:induction false} MaskedShift(x: nat, d: nat, cap: nat)
    requires d < cap
    ensures Masked(x + d, cap) == if Masked(x, cap) + d < cap then Masked(x, cap) + d else Masked(x, cap) + d - cap
  {
    if x >= cap { MaskedShift(x - cap, d, cap); }
  }

  /** Cursors less than a capacity apart select different slots. */
  lemma SlotsDiffer(i: nat, j: nat, cap: nat)
    requires i < j < i + cap
    ensures Masked(i, cap) != Masked(j, cap)
  {
    MaskedShift(i, j - i, cap);
  }

  /** The difference of two wrapped cursors is their true distance when that fits a word. */
  lemma WrappedDistance(a: nat, b: nat)
    requires a <= b < a + WORD
    ensures Wrap64(Wrap64(b) - Wrap64(a)) == b - a
    ensures Wrap64(a) == Wrap64(b) <==> a == b
    ensures Wrap64(Wrap64(b) + 1) == Wrap64(b + 1)
  {
  }

  // ----- the two threads ----------------------------------------------------------------

  /** Where a try_push(v) stands: before the test of the cached tail, before the refresh, before the second
      test, before the copy into the slot, before the release store of head. */
  datatype Producer<T> = PIdle | PCheck(v: T) | PRefresh(v: T) | PRecheck(v: T) | PCopy(v: T) | PPublish(v: T)

  datatype Consumer<T> = CIdle | CCheck | CRefresh | CRecheck | CCopy | CPublish(out: T)

  datatype Machine<T> = Machine(buf: seq<T>, head: Word, cachedTail: Word, tail: Word, cachedHead: Word,
                                p: Producer<T>, c: Consumer<T>)

  /** What has happened: everything published, everything consumed, and the unbounded positions that the
      two cached cursors were last loaded at. */
  datatype History<T> = History(published: seq<T>, consumed: seq<T>, seenTail: nat, seenHead: nat)

  datatype State<T> = State(m: Machine<T>, h: History<T>)

  /** One step of either thread. An acquire load may return any position between the one last seen and
      the current one. */
  datatype Act<T> =
    | StartPush(v: T) | TestRoom | LoadTail(seen: nat) | RetestRoom | CopyIn | StoreHead
    | StartPop | TestData | LoadHead(seen: nat) | RetestData | CopyOut | StoreTail

  predicate NoRoom<T>(m: Machine<T>) {
    Wrap64(Wrap64(m.head + 1) - m.cachedTail) > |m.buf|
  }

  /** The thread taking the step stands at it. */
  predicate AtStep<T>(m: Machine<T>, a: Act<T>) {
    match a
    case StartPush(_) => m.p.PIdle?
    case TestRoom => m.p.PCheck?
    case LoadTail(_) => m.p.PRefresh?
    case RetestRoom => m.p.PRecheck?
    case CopyIn => m.p.PCopy? && |m.buf| > 0
    case StoreHead => m.p.PPublish?
    case StartPop => m.c.CIdle?
    case TestData => m.c.CCheck?
    case LoadHead(_) => m.c.CRefresh?
    case RetestData => m.c.CRecheck?
    case CopyOut => m.c.CCopy? && |m.buf| > 0
    case StoreTail => m.c.CPublish?
  }

  predicate Enabled<T>(s: State<T>, a: Act<T>) {
    && AtStep(s.m, a)
    && (a.LoadTail? ==> s.h.seenTail <= a.seen <= |s.h.consumed|)
    && (a.LoadHead? ==> s.h.seenHead <= a.seen <= |s.h.published|)
  }

  /** The step on the real state; the loaded value of a cursor is its wrapped position. */
  function Do<T>(m: Machine<T>, a: Act<T>): Machine<T>
    requires AtStep(m, a)
  {
    match a
    case StartPush(v) => m.(p := PCheck(v))
    case TestRoom => m.(p := if NoRoom(m) then PRefresh(m.p.v) else PCopy(m.p.v))
    case LoadTail(seen) => m.(cachedTail := Wrap64(seen), p := PRecheck(m.p.v))
    case RetestRoom => m.(p := if NoRoom(m) then PIdle else PCopy(m.p.v))
    case CopyIn => m.(buf := m.buf[Masked(m.head, |m.buf|) := m.p.v], p := PPublish(m.p.v))
    case StoreHead => m.(head := Wrap64(m.head + 1), p := PIdle)
    case StartPop => m.(c := CCheck)
    case TestData => m.(c := if m.tail == m.cachedHead then CRefresh else CCopy)
    case LoadHead(seen) => m.(cachedHead := Wrap64(seen), c := CRecheck)
    case RetestData => m.(c := if m.tail == m.cachedHead then CIdle else CCopy)
    case CopyOut => m.(c := CPublish(m.buf[Masked(m.tail, |m.buf|)]))
    case StoreTail => m.(tail := Wrap64(m.tail + 1), c := CIdle)
  }

  function Next<T>(s: State<T>, a: Act<T>): State<T>
    requires Enabled(s, a)
  {
    var m := Do(s.m, a);
    match a
    case LoadTail(seen) => State(m, s.h.(seenTail := seen))
    case LoadHead(seen) => State(m, s.h.(seenHead := seen))
    case StoreHead => State(m, s.h.(published := s.h.published + [s.m.p.v]))
    case StoreTail => State(m, s.h.(consumed := s.h.consumed + [s.m.c.out]))
    case _ => State(m, s.h)
  }

  /** Every act of the schedule is enabled when its turn comes. */
  ghost predicate Schedule<T>(s: State<T>, acts: seq<Act<T>>)
    decreases |acts|
  {
    acts != [] ==> Enabled(s, acts[0]) && Schedule(Next(s, acts[0]), acts[1..])
  }

  ghost function Exec<T>(s: State<T>, acts: seq<Act<T>>): State<T>
    requires Schedule(s, acts)
    decreases |acts|
  {
    if acts == [] then s else Exec(Next(s, acts[0]), acts[1..])
  }

  /** A fresh ring of the given slots. */
  function Start<T>(buf: seq<T>): State<T> {
    State(Machine(buf, 0, 0, 0, 0, PIdle, CIdle), History([], [], 0, 0))
  }

  // ----- the invariant ---------------------------------------------------------------------

  ghost predicate Cursors<T>(s: State<T>) {
    var h, m := s.h, s.m;
    && h.seenTail <= |h.consumed| <= h.seenHead <= |h.published| <= h.seenTail + |m.buf|
    && m.head == Wrap64(|h.published|) && m.cachedTail == Wrap64(h.seenTail)
    && m.tail == Wrap64(|h.consumed|) && m.cachedHead == Wrap64(h.seenHead)
  }

  /** The slots from tail to head hold what was published and not yet consumed. */
  ghost predicate Stored<T>(s: State<T>)
    requires |s.m.buf| > 0
  {
    && |s.h.consumed| <= |s.h.published| && s.h.consumed == s.h.published[..|s.h.consumed|]
    && forall i :: |s.h.consumed| <= i < |s.h.published| ==> s.m.buf[Masked(i, |s.m.buf|)] == s.h.published[i]
  }

  ghost predicate InFlight<T>(s: State<T>)
    requires |s.m.buf| > 0
  {
    var h, m := s.h, s.m;
    && (m.p.PCopy? || m.p.PPublish? ==> |h.published| < h.seenTail + |m.buf|)
    && (m.p.PPublish? ==> m.buf[Masked(|h.published|, |m.buf|)] == m.p.v)
    && (m.c.CCopy? || m.c.CPublish? ==> |h.consumed| < h.seenHead)
    && (m.c.CPublish? ==> |h.consumed| < |h.published| && m.c.out == h.published[|h.consumed|])
  }

  ghost predicate Inv<T>(s: State<T>) {
    && IsPow2(|s.m.buf|) && 2 <= |s.m.buf| < WORD
    && Cursors(s) && Stored(s) && InFlight(s)
  }

  /** The slot a cursor on the machine selects is that of its unbounded position. */
  lemma SlotOf<T>(s: State<T>, x: nat)
    requires IsPow2(|s.m.buf|) && |s.m.buf| < WORD
    ensures |s.m.buf| > 0 && Masked(Wrap64(x), |s.m.buf|) == Masked(x, |s.m.buf|)
  {
    var k: nat :| |s.m.buf| == Pow2(k);
    Pow2Word();
    if k > 64 { Pow2Mono(64, k); }
    SlotOfWrapped(x, k);
  }

  /** The full test compares true distances, whatever the cursors have wrapped to. */
  lemma RoomTest<T>(s: State<T>)
    requires Inv(s)
    ensures NoRoom(s.m) <==> |s.h.published| == s.h.seenTail + |s.m.buf|
  {
    WrappedDistance(s.h.seenTail, |s.h.published|);
    WrappedDistance(s.h.seenTail, |s.h.published| + 1);
  }

  lemma DataTest<T>(s: State<T>)
    requires Inv(s)
    ensures s.m.tail == s.m.cachedHead <==> |s.h.consumed| == s.h.seenHead
  {
    WrappedDistance(|s.h.consumed|, s.h.seenHead);
  }

  /** A push past its test writes a slot outside [tail, head), so none the consumer may be reading. */
  lemma WriteIsApart<T>(s: State<T>, i: nat)
    requires Inv(s) && (s.m.p.PCopy? || s.m.p.PPublish?)
    requires |s.h.consumed| <= i < |s.h.published|
    ensures Masked(s.m.head, |s.m.buf|) != Masked(i, |s.m.buf|)
    ensures s.m.c.CCopy? ==> Masked(s.m.head, |s.m.buf|) != Masked(s.m.tail, |s.m.buf|)
  {
    SlotOf(s, |s.h.published|);
    SlotsDiffer(i, |s.h.published|, |s.m.buf|);
    if s.m.c.CCopy? {
      SlotOf(s, |s.h.consumed|);
      SlotsDiffer(|s.h.consumed|, |s.h.published|, |s.m.buf|);
    }
  }

  lemma CopyInKeeps<T>(s: State<T>)
    requires Inv(s) && Enabled(s, CopyIn)
    ensures Inv(Next(s, CopyIn))
  {
    var h, m, s' := s.h, s.m, Next(s, CopyIn);
    SlotOf(s, |h.published|);
    forall i | |h.consumed| <= i < |h.published| ensures s'.m.buf[Masked(i, |m.buf|)] == h.published[i] {
      WriteIsApart(s, i);
    }
  }

  lemma StoreHeadKeeps<T>(s: State<T>)
    requires Inv(s) && Enabled(s, StoreHead)
    ensures Inv(Next(s, StoreHead))
  {
    WrappedDistance(|s.h.published|, |s.h.published|);
  }

  lemma CopyOutKeeps<T>(s: State<T>)
    requires Inv(s) && Enabled(s, CopyOut)
    ensures Inv(Next(s, CopyOut))
  {
    SlotOf(s, |s.h.consumed|);
  }

  lemma StoreTailKeeps<T>(s: State<T>)
    requires Inv(s) && Enabled(s, StoreTail)
    ensures Inv(Next(s, StoreTail))
  {
    WrappedDistance(|s.h.consumed|, |s.h.consumed|);
  }

  lemma TestKeeps<T>(s: State<T>, a: Act<T>)
    requires Inv(s) && Enabled(s, a) && (a.TestRoom? || a.RetestRoom? || a.TestData? || a.RetestData?)
    ensures Inv(Next(s, a))
  {
    RoomTest(s);
    DataTest(s);
  }

  lemma NextKeeps<T>(s: State<T>, a: Act<T>)
    requires Inv(s) && Enabled(s, a)
    ensures Inv(Next(s, a))
  {
    match a
    case CopyIn => CopyInKeeps(s);
    case StoreHead => StoreHeadKeeps(s);
    case CopyOut => CopyOutKeeps(s);
    case StoreTail => StoreTailKeeps(s);
    case StartPush(_) =>
    case StartPop =>
    case LoadTail(_) =>
    case LoadHead(_) =>
    case _ => TestKeeps(s, a);
  }

  /** In every interleaving from a fresh ring, with loads as stale as they may be, the invariant holds. */
  lemma {:induction false} AlwaysInv<T>(s: State<T>, acts: seq<Act<T>>)
    requires Inv(s) && Schedule(s, acts)
    ensures Inv(Exec(s, acts))
    decreases |acts|
  {
    if acts != [] {
      NextKeeps(s, acts[0]);
      AlwaysInv(Next(s, acts[0]), acts[1..]);
    }
  }

  lemma StartInv<T>(buf: seq<T>)
    requires IsPow2(|buf|) && 2 <= |buf| < WORD
    ensures Inv(Start(buf))
  {
  }

  /** The occupied slots, oldest first, as the machine would read them. */
  ghost function Occupied<T>(s: State<T>): seq<T>
    requires |s.m.buf| > 0 && |s.h.consumed| <= |s.h.published|
  {
    seq(|s.h.published| - |s.h.consumed|, i requires 0 <= i => s.m.buf[Masked(Wrap64(|s.h.consumed| + i), |s.m.buf|)])
  }

  /** First in, first out, nothing lost, nothing made up: at every point of every interleaving what was
      consumed followed by the occupied slots is what was published. */
  lemma Fifo<T>(buf: seq<T>, acts: seq<Act<T>>)
    requires IsPow2(|buf|) && 2 <= |buf| < WORD && Schedule(Start(buf), acts)
    ensures var s := Exec(Start(buf), acts);
      && |s.m.buf| > 0 && |s.h.consumed| <= |s.h.published| <= |s.h.consumed| + |s.m.buf|
      && s.h.consumed + Occupied(s) == s.h.published
  {
    hide Inv, Exec, Schedule, Next, Occupied;
    StartInv(buf);
    AlwaysInv(Start(buf), acts);
    InvFacts(Exec(Start(buf), acts));
    OccupiedIs(Exec(Start(buf), acts));
  }

  lemma OccupiedIs<T>(s: State<T>)
    requires Inv(s)
    ensures |s.m.buf| > 0 && |s.h.consumed| <= |s.h.published| && s.h.consumed + Occupied(s) == s.h.published
  {
    hide Wrap64, Masked;
    forall i | 0 <= i < |s.h.published| - |s.h.consumed|
      ensures Occupied(s)[i] == s.h.published[|s.h.consumed| + i]
    {
      SlotOf(s, |s.h.consumed| + i);
    }
  }

  /** A push gives up exactly when the tail it loaded leaves no room; with a current load that means the ring
      was full at that moment. */
  lemma PushFailsOnlyWhenFull<T>(s: State<T>, seen: nat)
    requires Inv(s) && Enabled(s, LoadTail(seen))
    ensures var loaded := Next(s, LoadTail(seen));
      Next(loaded, RetestRoom).m.p.PIdle? <==> |s.h.published| == seen + |s.m.buf|
    ensures seen == |s.h.consumed| ==>
      (Next(Next(s, LoadTail(seen)), RetestRoom).m.p.PIdle? <==> |s.h.published| - |s.h.consumed| == |s.m.buf|)
  {
    NextKeeps(s, LoadTail(seen));
    RoomTest(Next(s, LoadTail(seen)));
  }

  /** A pop gives up exactly when the head it loaded shows nothing new; with a current load the ring was empty. */
  lemma PopFailsOnlyWhenEmpty<T>(s: State<T>, seen: nat)
    requires Inv(s) && Enabled(s, LoadHead(seen))
    ensures var loaded := Next(s, LoadHead(seen));
      Next(loaded, RetestData).m.c.CIdle? <==> |s.h.consumed| == seen
    ensures seen == |s.h.published| ==>
      (Next(Next(s, LoadHead(seen)), RetestData).m.c.CIdle? <==> s.h.consumed == s.h.published)
  {
    NextKeeps(s, LoadHead(seen));
    DataTest(Next(s, LoadHead(seen)));
  }

  // ----- either call running alone -----------------------------------------------------------

  lemma InvFacts<T>(s: State<T>)
    requires Inv(s)
    ensures 2 <= |s.m.buf| && |s.h.consumed| <= |s.h.published| <= |s.h.consumed| + |s.m.buf|
    ensures s.m.tail == Wrap64(|s.h.consumed|) && s.m.head == Wrap64(|s.h.published|)
    ensures s.h.seenTail <= |s.h.consumed| && s.h.seenHead <= |s.h.published|
    ensures s.m.p.PCopy? ==> |s.h.published| < |s.h.consumed| + |s.m.buf|
    ensures s.m.c.CCopy? ==> |s.h.consumed| < |s.h.published|
  {
  }

  /** The slot is written and head stored. */
  function Pushed<T>(s: State<T>, v: T): State<T>
    requires |s.m.buf| > 0
  {
    var m := s.m.(buf := s.m.buf[Masked(s.m.head, |s.m.buf|) := v], head := Wrap64(s.m.head + 1));
    State(m, s.h.(published := s.h.published + [v]))
  }

  /** The current tail is loaded. */
  function TailSeen<T>(s: State<T>): State<T> {
    State(s.m.(cachedTail := s.m.tail), s.h.(seenTail := |s.h.consumed|))
  }

  lemma TailSeenKeeps<T>(s: State<T>)
    requires Inv(s) && s.m.p.PIdle?
    ensures Inv(TailSeen(s))
  {
    hide Masked, Wrap64;
  }

  lemma HeadSeenKeeps<T>(s: State<T>)
    requires Inv(s) && s.m.c.CIdle?
    ensures Inv(HeadSeen(s))
  {
    hide Masked, Wrap64;
  }

  /** A push with room in sight is these four steps. */
  lemma PushSteps<T>(s: State<T>, v: T)
    requires Inv(s) && s.m.p.PIdle? && !NoRoom(s.m)
    ensures |s.m.buf| > 0 && Inv(Pushed(s, v)) && |s.h.published| < |s.h.consumed| + |s.m.buf|
    ensures Pushed(s, v) == Next(Next(Next(Next(s, StartPush(v)), TestRoom), CopyIn), StoreHead)
  {
    hide Inv, Masked, Wrap64;
    var s1 := Next(Next(s, StartPush(v)), TestRoom);
    NextKeeps(s, StartPush(v));
    NextKeeps(Next(s, StartPush(v)), TestRoom);
    InvFacts(s1);
    NextKeeps(s1, CopyIn);
    NextKeeps(Next(s1, CopyIn), StoreHead);
  }

  /** A push with no room in sight loads the current tail, and gives up if the ring is full: then these are its
      four steps. */
  lemma PushLooksAgain<T>(s: State<T>, v: T)
    requires Inv(s) && s.m.p.PIdle? && NoRoom(s.m)
    ensures Inv(TailSeen(s)) && (NoRoom(TailSeen(s).m) <==> |s.h.published| == |s.h.consumed| + |s.m.buf|)
    ensures var s1 := Next(Next(s, StartPush(v)), TestRoom);
      && Enabled(s1, LoadTail(|s.h.consumed|))
      && (NoRoom(TailSeen(s).m) ==> TailSeen(s) == Next(Next(s1, LoadTail(|s.h.consumed|)), RetestRoom))
  {
    hide Inv, Masked, Wrap64;
    InvFacts(s);
    TailSeenKeeps(s);
    RoomTest(TailSeen(s));
  }

  /** The slot is read and tail stored. */
  function Popped<T>(s: State<T>): State<T>
    requires |s.h.consumed| < |s.h.published|
  {
    State(s.m.(tail := Wrap64(s.m.tail + 1)), s.h.(consumed := s.h.consumed + [s.h.published[|s.h.consumed|]]))
  }

  /** The current head is loaded. */
  function HeadSeen<T>(s: State<T>): State<T> {
    State(s.m.(cachedHead := s.m.head), s.h.(seenHead := |s.h.published|))
  }

  /** A pop with something in sight is these four steps. */
  lemma PopSteps<T>(s: State<T>)
    requires Inv(s) && s.m.c.CIdle? && s.m.tail != s.m.cachedHead
    ensures |s.m.buf| > 0 && |s.h.consumed| < |s.h.published| && Inv(Popped(s))
    ensures s.m.buf[Masked(s.m.tail, |s.m.buf|)] == s.h.published[|s.h.consumed|]
    ensures Popped(s) == Next(Next(Next(Next(s, StartPop), TestData), CopyOut), StoreTail)
  {
    hide Wrap64, Masked;
    var s1 := Next(Next(s, StartPop), TestData);
    NextKeeps(s, StartPop);
    NextKeeps(Next(s, StartPop), TestData);
    NextKeeps(s1, CopyOut);
    NextKeeps(Next(s1, CopyOut), StoreTail);
  }

  /** A pop with nothing in sight loads the current head, and gives up if the ring is empty: then these are its
      four steps. */
  lemma PopLooksAgain<T>(s: State<T>)
    requires Inv(s) && s.m.c.CIdle? && s.m.tail == s.m.cachedHead
    ensures Inv(HeadSeen(s)) && (HeadSeen(s).m.tail == HeadSeen(s).m.cachedHead <==> |s.h.consumed| == |s.h.published|)
    ensures var s1 := Next(Next(s, StartPop), TestData);
      && Enabled(s1, LoadHead(|s.h.published|))
      && (s.m.tail == s.m.head ==> HeadSeen(s) == Next(Next(s1, LoadHead(|s.h.published|)), RetestData))
  {
    hide Inv, Masked, Wrap64;
    InvFacts(s);
    HeadSeenKeeps(s);
    DataTest(HeadSeen(s));
  }

  // ----- the ring used by one thread at a time ------------------------------------------------

  class SpscRing<T(0)> {
    const buf: array<T>
    var head: Word
    var cachedTail: Word
    var tail: Word
    var cachedHead: Word
    ghost var h: History<T>

    /** Both threads between calls. */
    ghost function S(): State<T>
      reads this, buf
    {
      State(Machine(buf[..], head, cachedTail, tail, cachedHead, PIdle, CIdle), h)
    }

    ghost predicate Valid()
      reads this, buf
    {
      Inv(S())
    }

    /** What is in the ring, oldest first. */
    ghost function Contents(): seq<T>
      reads this, buf
      requires Valid()
    {
      h.published[|h.consumed|..]
    }

    constructor (capacity: nat)
      requires IsPow2(capacity) && 2 <= capacity < WORD
      ensures Valid() && fresh(buf) && buf.Length == capacity && Contents() == []
    {
      buf := new T[capacity];
      head, cachedTail, tail, cachedHead := 0, 0, 0, 0;
      h := History([], [], 0, 0);
    }

    method TryPush(v: T) returns (ok: bool)
      requires Valid()
      modifies this, buf
      ensures Valid()
      ensures ok == (|old(Contents())| < buf.Length)
      ensures Contents() == if ok then old(Contents()) + [v] else old(Contents())
    {
      hide Inv, Masked, Wrap64;
      InvFacts(S());
      var next := Wrap64(head + 1);
      if Wrap64(next - cachedTail) > buf.Length {
        ghost var s := S();
        PushLooksAgain(s, v);
        cachedTail := tail;
        h := h.(seenTail := |h.consumed|);
        assert S() == TailSeen(s);
        if Wrap64(next - cachedTail) > buf.Length { return false; }
      }
      ghost var s := S();
      PushSteps(s, v);
      buf[Masked(head, buf.Length)] := v;
      head := next;
      h := h.(published := h.published + [v]);
      ok := true;
      assert S() == Pushed(s, v);
    }

    method TryPop() returns (out: Option<T>)
      requires Valid()
      modifies this
      ensures Valid()
      ensures out == if old(Contents()) == [] then None else Some(old(Contents())[0])
      ensures Contents() == if out.None? then old(Contents()) else old(Contents())[1..]
    {
      hide Inv, Masked, Wrap64;
      InvFacts(S());
      if tail == cachedHead {
        ghost var s := S();
        PopLooksAgain(s);
        cachedHead := head;
        h := h.(seenHead := |h.published|);
        assert S() == HeadSeen(s);
        if tail == cachedHead { return None; }
      }
      ghost var s := S();
      PopSteps(s);
      out := Some(buf[Masked(tail, buf.Length)]);
      tail := Wrap64(tail + 1);
      h := h.(consumed := h.consumed + [out.value]);
      assert S() == Popped(s);
    }
  }
}
