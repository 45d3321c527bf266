/**
 What an append plans and what a read does (crates/enchudb-engine/src/change_log.rs), on the values of the
 words and of the cursor: dropping the oldest entries, placing a chunk, walking and reading.
 */
module ChangeLogSteps {
  import opened Wrappers
  import opened ChangeLogLayout
  import opened ChangeLogRecovery
  import opened ChangeLogChunk

  const MARK_EVERY: nat := 64

  datatype Entry = Entry(no: nat, hlc: Hlc, payload: seq<nat>)
  datatype ReadResult = Ok(entries: seq<Entry>) | Truncated(from: nat)

  function EntryOf(g: Layout, k: nat): Entry {
    Entry(k, g.stream(k).hlc, g.stream(k).payload)
  }

  /** Bytes of entries `a..b`. */
  ghost function Bytes(g: Layout, a: nat, b: nat): nat
    decreases b
  {
    if b <= a then 0 else Bytes(g, a, b - 1) + g.stream(b - 1).len
  }

  /** The header of the entry to drop: its length is checked against the number of the next entry, or by checksum. */
  function DroppedAt(g: Layout, d: seq<Word>, at: nat, first: nat, limit: nat): (r: Option<Header>)
    requires |d| == g.cap && at < g.cap
    ensures r.Some? ==> at + SizeOf(r.value.len) <= g.cap
  {
    var e := HeaderAt(g, d, at);
    if e.None? || e.value.no != first then None
    else if first + 1 >= limit then EntryAt(g, d, at)
    else
      var n := HeaderAt(g, d, WrapAt(g, d, Fold(g.cap, at + SizeOf(e.value.len))));
      if n.Some? && n.value.no == first + 1 then e else None
  }

  lemma DroppedAtHeld(g: Layout, d: seq<Word>, tail: nat, first: nat, limit: nat)
    requires |d| == g.cap && tail < g.cap && first < limit && Held(g, d, tail, first, limit)
    ensures WrapAt(g, d, tail) == Pos(g, first)
    ensures DroppedAt(g, d, Pos(g, first), first, limit) == Some(HeaderOf(g, first))
    ensures Fold(g.cap, Pos(g, first) + Size(g, first)) == Head(g, first + 1)
  {
    hide HeadAt;
    assert Whole(g, d, first);
    WholeIsEntry(g, d, first);
    Between(g, first);
    if first + 1 < limit {
      assert Whole(g, d, first + 1);
      WholeIsEntry(g, d, first + 1);
    }
  }

  /** A cursor `sim` on the way from `c` to holding the entries placed so far: its place on the line. */
  ghost predicate OnTheWay(g: Layout, c: Cursor, sim: Cursor) {
    && sim.tail < g.cap && Shape(g, sim)
    && c.first <= sim.first <= c.next <= sim.next
    && (forall k | sim.first <= k < sim.next :: !Oversize(g, k))
    && (sim.first < sim.next ==> Within(TailAt(g, sim.tail, sim.first), HeadAt(g, sim.next)))
    && (sim.first < c.next ==> TailAt(g, sim.tail, sim.first) == TailOf(g, c, sim.first))
  }

  /** The last number dropped on the way (so every one) stood in the way of number `next - 1`. */
  ghost predicate Forced(g: Layout, c: Cursor, first: nat, next: nat) {
    c.first < first ==> NoRoom(g, c, first - 1, next)
  }

  /** The cursor once its oldest entry is dropped. */
  ghost function Shorter(g: Layout, s: Cursor): Cursor {
    s.(first := s.first + 1, tail := if s.first + 1 == s.next then s.head else Head(g, s.first + 1))
  }

  /** The cursor once the next entry is placed. */
  ghost function Longer(g: Layout, s: Cursor): Cursor {
    s.(tail := if s.first == s.next then Pos(g, s.next) else s.tail, head := Head(g, s.next + 1), next := s.next + 1)
  }

  lemma DropKeeps(g: Layout, c: Cursor, s: Cursor)
    requires OnTheWay(g, c, s) && s.first < c.next
    ensures OnTheWay(g, c, Shorter(g, s))
  {
    hide HeadAt;
    var f := s.first;
    TailOrder(g, s.tail, f, f + 1);
    Forward(g, f + 1, s.next);
    WithinShrinks(TailAt(g, s.tail, f), HeadAt(g, f + 1), HeadAt(g, s.next), HeadAt(g, s.next));
  }

  lemma DropForced(g: Layout, c: Cursor, s: Cursor, n: nat)
    requires OnTheWay(g, c, s) && s.first < c.next && !Oversize(g, s.next) && n == s.next + 1
    requires !FreeAt(g.cap, s, Pos(g, s.next), Size(g, s.next))
    ensures NoRoom(g, c, s.first, n)
  {
    hide HeadAt;
    TailOrder(g, s.tail, s.first, s.next);
    FreeAtIsRoom(g, s, TailAt(g, s.tail, s.first));
  }

  lemma ForcedLater(g: Layout, c: Cursor, first: nat, m: nat, n: nat)
    requires Forced(g, c, first, m) && first <= m <= n && (c.first < first ==> !Oversize(g, c.first))
    ensures Forced(g, c, first, n)
  {
    hide HeadAt;
    if c.first < first {
      NoRoomLater(g, c, first - 1, m, n);
    }
  }

  lemma PlaceKeeps(g: Layout, c: Cursor, s: Cursor)
    requires OnTheWay(g, c, s) && s.next < WRAP && !Oversize(g, s.next)
    requires s.first == s.next || FreeAt(g.cap, s, Pos(g, s.next), Size(g, s.next))
    ensures OnTheWay(g, c, Longer(g, s))
  {
    hide HeadAt;
    Between(g, s.next);
    SizeBound(g, s.next);
    if s.first < s.next {
      TailOrder(g, s.tail, s.first, s.next);
      FreeAtIsRoom(g, s, TailAt(g, s.tail, s.first));
    }
  }

  /** Once the old entries are gone, a chunk that stays within a lap always has room. */
  lemma ChunkHasRoom(g: Layout, c: Cursor, s: Cursor, n: nat)
    requires OnTheWay(g, c, s) && s.first == c.next < s.next && !Oversize(g, s.next) && n == s.next + 1
    requires Within(HeadAt(g, c.next), HeadAt(g, n))
    ensures FreeAt(g.cap, s, Pos(g, s.next), Size(g, s.next))
  {
    hide HeadAt;
    var t := TailAt(g, s.tail, s.first);
    TailOrder(g, s.tail, s.first, s.next);
    Forward(g, s.next, n);
    WithinShrinks(HeadAt(g, c.next), t, HeadAt(g, n), HeadAt(g, n));
    FreeAtIsRoom(g, s, t);
  }

  // ---- Planning (the data is only read) ----

  /** The watched ones of the numbers from `a` to `b`, whose entries cannot be read. */
  ghost function Unread(watch: seq<nat>, a: nat, b: nat): seq<(nat, Hlc)> {
    if b <= a then [] else Unread(watch, a, b - 1) + if b - 1 in watch then [(b - 1, ZERO_HLC)] else []
  }

  /** `l` names, in order and once each, exactly the watched numbers of `a..b`, without a stamp. */
  ghost predicate Unstamped(watch: seq<nat>, a: nat, b: nat, l: seq<(nat, Hlc)>) {
    Rising(l) && forall n: nat, h :: (n, h) in l <==> a <= n < b && n in watch && h == ZERO_HLC
  }

  lemma {:induction false} UnreadExactly(watch: seq<nat>, a: nat, b: nat)
    ensures Unstamped(watch, a, b, Unread(watch, a, b))
    decreases b
  {
    if a < b {
      hide Rising;
      UnreadExactly(watch, a, b - 1);
      RisesOn(Unread(watch, a, b - 1), b - 1, ZERO_HLC);
      forall n: nat, h ensures (n, h) in Unread(watch, a, b) <==> a <= n < b && n in watch && h == ZERO_HLC {
        UnreadStep(watch, a, b - 1, n, h);
      }
    }
  }

  lemma UnreadStep(watch: seq<nat>, a: nat, b: nat, n: nat, h: Hlc)
    requires a <= b
    ensures (n, h) in Unread(watch, a, b + 1) <==>
      (n, h) in Unread(watch, a, b) || (n == b && n in watch && h == ZERO_HLC)
  {
    var l := Unread(watch, a, b);
    assert (n, h) in l + [(b, ZERO_HLC)] <==> (n, h) in l || (n, h) == (b, ZERO_HLC);
  }

  /**
   Drop the oldest entry. In a held log exactly one goes, and a watched one is reported with its stamp; a damaged entry
   takes all older ones with it, and the watched ones are reported without a stamp.
   */
  method DropOldest(g: Layout, d: seq<Word>, sim: Cursor, limit: nat, watch: seq<nat>, lost: seq<(nat, Hlc)>)
    returns (s: Cursor, l: seq<(nat, Hlc)>)
    requires |d| == g.cap && sim.tail < g.cap && sim.head < g.cap
    ensures limit <= sim.first ==> s == sim && l == lost
    ensures sim.first < limit && Held(g, d, sim.tail, sim.first, limit) ==>
      && s == Shorter(g, sim)
      && l == lost + LostBetween(g, watch, sim.first, sim.first + 1)
      && l == lost + if sim.first in watch then [(sim.first, g.stream(sim.first).hlc)] else []
    ensures sim.first < limit && DroppedAt(g, d, WrapAt(g, d, sim.tail), sim.first, limit).None? ==>
      && s == sim.(first := limit, tail := sim.head) && l == lost + Unread(watch, sim.first, limit)
      && Unstamped(watch, sim.first, limit, l[|lost|..])
    ensures s.tail < g.cap
  {
    hide HeadAt, Unstamped, SizeOf;
    s, l := sim, lost;
    if sim.first >= limit {
      return;
    }
    var at := WrapAt(g, d, sim.tail);
    var e := DroppedAt(g, d, at, sim.first, limit);
    if e.Some? {
      if e.value.no in watch {
        l := l + [(e.value.no, e.value.hlc)];
      }
      s := s.(tail := Fold(g.cap, at + SizeOf(e.value.len)), first := sim.first + 1);
    } else {
      for no := sim.first to limit
        invariant l == lost + Unread(watch, sim.first, no)
      {
        if no in watch {
          l := l + [(no, ZERO_HLC)];
        }
      }
      s := s.(first := limit, tail := sim.head);
      UnreadExactly(watch, sim.first, limit);
      assert l[|lost|..] == Unread(watch, sim.first, limit);
    }
    if s.first == s.next {
      s := s.(tail := s.head);
    }
    if Held(g, d, sim.tail, sim.first, limit) {
      DroppedAtHeld(g, d, sim.tail, sim.first, limit);
      assert Whole(g, d, sim.first);
      assert LostBetween(g, watch, sim.first, sim.first) == [];
    }
  }

  /** A plan under way: what is still kept can be read, and number `n - 1` forced the drops so far. */
  ghost predicate Planning(g: Layout, d: seq<Word>, c: Cursor, s: Cursor, n: nat) {
    && |d| == g.cap
    && OnTheWay(g, c, s)
    && Held(g, d, s.tail, s.first, c.next)
    && (c.first < c.next ==> !Oversize(g, c.first))
    && Forced(g, c, s.first, n)
  }

  lemma PlanShorter(g: Layout, d: seq<Word>, c: Cursor, s: Cursor, n: nat)
    requires Planning(g, d, c, s, n) && s.first < c.next && n == s.next + 1 && !Oversize(g, s.next)
    requires !FreeAt(g.cap, s, Pos(g, s.next), Size(g, s.next))
    ensures Planning(g, d, c, Shorter(g, s), n)
  {
    hide HeadAt;
    DropKeeps(g, c, s);
    DropForced(g, c, s, n);
  }

  /** Drop the oldest entry of a held log, with `lost` kept as the watched numbers dropped since `a`. */
  method DropHeld(g: Layout, d: seq<Word>, sim: Cursor, limit: nat, watch: seq<nat>, lost: seq<(nat, Hlc)>,
                  ghost base: seq<(nat, Hlc)>, ghost a: nat)
    returns (s: Cursor, l: seq<(nat, Hlc)>)
    requires |d| == g.cap && sim.tail < g.cap && sim.head < g.cap
    requires a <= sim.first < limit <= sim.next && Held(g, d, sim.tail, sim.first, limit)
    requires lost == base + LostBetween(g, watch, a, sim.first)
    ensures s == Shorter(g, sim) && s.tail < g.cap && Held(g, d, s.tail, s.first, limit)
    ensures l == base + LostBetween(g, watch, a, s.first)
  {
    hide HeadAt;
    s, l := DropOldest(g, d, sim, limit, watch, lost);
    assert l == base + LostBetween(g, watch, a, sim.first + 1) by {
      LostJoins(g, watch, a, sim.first, sim.first + 1);
    }
  }

  /** Where an entry goes, how many words, and where its wrap marker goes if it has one. */
  datatype Placing = Placing(at: nat, n: nat, wrap: Option<nat>)

  /** The gap before entry `m` is large enough for a wrap marker. */
  predicate Gap(g: Layout, m: nat) {
    Pos(g, m) != Head(g, m) && g.cap - Head(g, m) >= HDR
  }

  function PlacingOf(g: Layout, m: nat): Placing {
    Placing(Pos(g, m), Size(g, m), if Gap(g, m) then Some(Head(g, m)) else None)
  }

  /** Drop from the old end while it is in the way of the next entry. */
  method MakeRoom(g: Layout, d: seq<Word>, c: Cursor, sim: Cursor, at: nat, watch: seq<nat>, lost: seq<(nat, Hlc)>,
                  ghost n: nat, ghost base: seq<(nat, Hlc)>, ghost a: nat)
    returns (s: Cursor, l: seq<(nat, Hlc)>)
    requires a <= sim.first && lost == base + LostBetween(g, watch, a, sim.first)
    requires n == sim.next + 1 && Planning(g, d, c, sim, n)
    requires !Oversize(g, sim.next) && Within(HeadAt(g, c.next), HeadAt(g, n)) && at == Pos(g, sim.next)
    ensures s.next == sim.next && s.head == sim.head && s.last == sim.last && sim.first <= s.first
    ensures Planning(g, d, c, s, n)
    ensures s.first == s.next || FreeAt(g.cap, s, at, Size(g, s.next))
    ensures l == base + LostBetween(g, watch, a, s.first)
  {
    s, l := sim, lost;
    while s.first != s.next && !FreeAt(g.cap, s, at, Size(g, s.next))
      invariant Planning(g, d, c, s, n)
      invariant s.next == sim.next && s.head == sim.head && s.last == sim.last && sim.first <= s.first
      invariant l == base + LostBetween(g, watch, a, s.first)
      decreases s.next - s.first
    {
      if s.first >= c.next {
        // all old entries are gone and the chunk alone does not fit: never
        ChunkHasRoom(g, c, s, n);
        assert false;
      }
      PlanShorter(g, d, c, s, n);
      s, l := DropHeld(g, d, s, c.next, watch, l, base, a);
    }
  }

  /** Place the next entry. */
  method PlaceOne(g: Layout, d: seq<Word>, c: Cursor, sim: Cursor, watch: seq<nat>, lost: seq<(nat, Hlc)>,
                  ghost n: nat, ghost base: seq<(nat, Hlc)>, ghost a: nat)
    returns (s: Cursor, l: seq<(nat, Hlc)>, p: Placing)
    requires a <= sim.first && lost == base + LostBetween(g, watch, a, sim.first)
    requires n == sim.next + 1 && Planning(g, d, c, sim, sim.next)
    requires sim.next < WRAP && !Oversize(g, sim.next) && Within(HeadAt(g, c.next), HeadAt(g, n))
    ensures p == PlacingOf(g, sim.next) && s.next == n && s.last == sim.last && sim.first <= s.first
    ensures Planning(g, d, c, s, n) && (s.first == sim.next ==> s.tail == p.at)
    ensures l == base + LostBetween(g, watch, a, s.first)
  {
    hide HeadAt;
    var at := if g.cap - sim.head >= Size(g, sim.next) then sim.head else 0;
    ForcedLater(g, c, sim.first, sim.next, n);
    s, l := MakeRoom(g, d, c, sim, at, watch, lost, n, base, a);
    PlanPlaced(g, d, c, s, at, n);
    p := Placing(at, Size(g, s.next), if at != s.head && g.cap - s.head >= HDR then Some(s.head) else None);
    s := Cursor(if s.first == s.next then at else s.tail, Fold(g.cap, at + Size(g, s.next)), s.first, s.next + 1,
      s.last);
  }

  lemma PlanPlaced(g: Layout, d: seq<Word>, c: Cursor, s: Cursor, at: nat, n: nat)
    requires n == s.next + 1 && Planning(g, d, c, s, n) && s.next < WRAP && !Oversize(g, s.next) && at == Pos(g, s.next)
    requires s.first == s.next || FreeAt(g.cap, s, at, Size(g, s.next))
    ensures at + Size(g, s.next) <= g.cap
    ensures Planning(g, d, c,
              Cursor(if s.first == s.next then at else s.tail, Fold(g.cap, at + Size(g, s.next)), s.first, n, s.last),
              n)
  {
    hide HeadAt, Whole, WrapAt, NoRoom, Within, TailAt;
    PlaceKeeps(g, c, s);
    Between(g, s.next);
    assert Fold(g.cap, at + Size(g, s.next)) == Head(g, s.next + 1);
  }

  // ---- Chunks in the data ----

  ghost predicate PlanIs(g: Layout, plan: seq<Placing>, i: nat) {
    forall k | 0 <= k < |plan| :: plan[k] == PlacingOf(g, i + k)
  }

  ghost predicate MarksIn(g: Layout, d: seq<Word>, i: nat, j: nat)
    requires |d| == g.cap
  {
    forall m | i <= m < j && Gap(g, m) :: d[Head(g, m)] == Mark(0)
  }

  ghost predicate WholeIn(g: Layout, d: seq<Word>, i: nat, j: nat)
    requires |d| == g.cap
  {
    forall m | i <= m < j :: Whole(g, d, m)
  }

  /** Header `hd`, with what it needs up to `n`, leaves room for numbers up to `j`. */
  ghost predicate RoomFor(g: Layout, hd: Cursor, n: nat, j: nat) {
    hd.first < n ==> !Oversize(g, hd.first) && Within(TailAt(g, hd.tail, hd.first), HeadAt(g, j))
  }

  lemma NotNeeded(g: Layout, hd: Cursor, n: nat, j: nat, m: nat)
    requires RoomFor(g, hd, n, j) && n <= m < j && !Oversize(g, m)
    ensures forall p | InEntry(g, m, p) :: !Needed(g, hd, n, p)
    ensures Pos(g, m) != Head(g, m) ==> forall p | Head(g, m) <= p < g.cap :: !Needed(g, hd, n, p)
  {
    hide HeadAt;
    if hd.first < n {
      var t := TailAt(g, hd.tail, hd.first);
      TailOrder(g, hd.tail, hd.first, n);
      TailOrder(g, hd.tail, hd.first, m + 1);
      Forward(g, m + 1, j);
      WithinShrinks(t, t, HeadAt(g, m + 1), HeadAt(g, j));
      EntryFresh(g, t, n, m);
      forall p | InEntry(g, m, p) ensures !Needed(g, hd, n, p) {
        assert !Live(t, HeadAt(g, n), p);
      }
    }
  }

  lemma MarkKeepsChunk(g: Layout, d: seq<Word>, e: seq<Word>, i: nat, j: nat, m: nat)
    requires ChunkOk(g, i, j) && i <= m < j && Gap(g, m) && |d| == |e| == g.cap && MarksIn(g, d, i, m)
    requires forall p | 0 <= p < g.cap ::
      e[p] == if Head(g, m) <= p < Head(g, m) + HDR then Mark(p - Head(g, m)) else d[p]
    ensures MarksIn(g, e, i, m + 1)
  {
    hide HeadAt;
    forall k | i <= k <= m && Gap(g, k) ensures e[Head(g, k)] == Mark(0) {
      if k < m {
        ChunkApart(g, i, j, k, m);
      }
    }
  }

  /** Writing one entry of a chunk leaves the others, and all the wrap markers, as they are. */
  lemma EntryKeepsChunk(g: Layout, d: seq<Word>, e: seq<Word>, i: nat, j: nat, m: nat)
    requires ChunkOk(g, i, j) && i <= m < j && m < WRAP && |d| == |e| == g.cap
    requires forall p | 0 <= p < g.cap :: e[p] == if InEntry(g, m, p) then Part(m, p - Pos(g, m)) else d[p]
    requires MarksIn(g, d, i, j) && WholeIn(g, d, i, m)
    ensures MarksIn(g, e, i, j) && WholeIn(g, e, i, m + 1)
  {
    hide HeadAt;
    Between(g, m);
    forall k | i <= k <= m ensures Whole(g, e, k) {
      if k < m {
        assert Whole(g, d, k);
        ChunkApart(g, i, j, k, m);
        forall x | 0 <= x < Size(g, k) ensures e[Pos(g, k) + x] == Part(k, x) {
          assert InEntry(g, k, Pos(g, k) + x);
        }
      }
    }
    forall k | i <= k < j && Gap(g, k) ensures e[Head(g, k)] == Mark(0) {
      if k < m {
        ChunkApart(g, i, j, k, m);
      } else if k > m {
        ChunkApart(g, i, j, m, k);
      } else {
        GapApart(g, m);
      }
    }
  }

  lemma PlanGrows(g: Layout, plan: seq<Placing>, i: nat, p: Placing, m: nat)
    requires PlanIs(g, plan, i) && m == i + |plan| && p == PlacingOf(g, m)
    ensures PlanIs(g, plan + [p], i)
  {
  }

  lemma PlanStart(g: Layout, d: seq<Word>, c: Cursor)
    requires Intact(g, d, c)
    ensures Planned(g, d, c, c, [], c.next)
  {
    hide HeadAt;
    forall k | c.first <= k < c.next ensures !Oversize(g, k) {
      assert Whole(g, d, k);
    }
  }

  /** Decide where a chunk goes and what it pushes out. */
  method PlanChunk(g: Layout, d: seq<Word>, c: Cursor, watch: seq<nat>, lost: seq<(nat, Hlc)>, j: nat,
                   ghost base: seq<(nat, Hlc)>, ghost a: nat)
    returns (sim: Cursor, l: seq<(nat, Hlc)>, plan: seq<Placing>)
    requires a <= c.first && lost == base + LostBetween(g, watch, a, c.first)
    requires Planned(g, d, c, c, [], c.next) && ChunkOk(g, c.next, j) && j <= WRAP
    ensures Planning(g, d, c, sim, j) && sim.next == j && sim.last == c.last
    ensures |plan| == j - c.next && PlanIs(g, plan, c.next)
    ensures l == base + LostBetween(g, watch, a, sim.first)
  {
    sim, l, plan := c, lost, [];
    for m := c.next to j
      invariant Planned(g, d, c, sim, plan, m) && sim.last == c.last && a <= sim.first
      invariant l == base + LostBetween(g, watch, a, sim.first)
    {
      sim, l, plan := PlanStep(g, d, c, sim, watch, l, plan, m, j, base, a);
    }
  }

  ghost predicate Planned(g: Layout, d: seq<Word>, c: Cursor, sim: Cursor, plan: seq<Placing>, m: nat) {
    && Planning(g, d, c, sim, m) && sim.next == m
    && |plan| == m - c.next && PlanIs(g, plan, c.next)
  }

  method PlanStep(g: Layout, d: seq<Word>, c: Cursor, sim: Cursor, watch: seq<nat>, lost: seq<(nat, Hlc)>,
      plan: seq<Placing>,
                  m: nat, ghost j: nat, ghost base: seq<(nat, Hlc)>, ghost a: nat)
    returns (s: Cursor, l: seq<(nat, Hlc)>, plan': seq<Placing>)
    requires Planned(g, d, c, sim, plan, m) && m < j <= WRAP && ChunkOk(g, c.next, j)
    requires a <= sim.first && lost == base + LostBetween(g, watch, a, sim.first)
    ensures Planned(g, d, c, s, plan', m + 1) && s.last == sim.last && a <= s.first
    ensures l == base + LostBetween(g, watch, a, s.first)
  {
    hide HeadAt;
    ChunkFits(g, c.next, j, m + 1);
    var p;
    s, l, p := PlaceOne(g, d, c, sim, watch, lost, m + 1, base, a);
    PlanGrows(g, plan, c.next, p, m);
    plan' := plan + [p];
  }

  /** The header that stops pointing at what the chunk will overwrite. */
  function Shrunk(c: Cursor, sim: Cursor): Cursor {
    if sim.first >= c.next then c.(first := c.next, tail := c.head) else c.(first := sim.first, tail := sim.tail)
  }

  lemma ShrunkSupports(g: Layout, d: seq<Word>, c: Cursor, sim: Cursor, j: nat)
    requires Intact(g, d, c) && Planning(g, d, c, sim, j) && sim.next == j
    ensures Supports(g, d, Shrunk(c, sim), c.next)
    ensures RoomFor(g, Shrunk(c, sim), c.next, j)
  {
    hide HeadAt;
    if sim.first < c.next {
      assert Whole(g, d, sim.first);
      var t := TailAt(g, sim.tail, sim.first);
      TailOrder(g, sim.tail, sim.first, c.next);
      Forward(g, c.next, j);
      WithinShrinks(t, t, HeadAt(g, c.next), HeadAt(g, j));
    }
  }

  /** With nothing dropped, the header on disk, which may be older than the cursor, leaves room as well. */
  lemma OldHeaderRoom(g: Layout, d: seq<Word>, c: Cursor, h: Cursor, sim: Cursor, j: nat)
    requires Intact(g, d, c) && Supports(g, d, h, c.next) && h.first == c.first && h.tail == c.tail
    requires Planning(g, d, c, sim, j) && sim.next == j && sim.first == c.first
    ensures RoomFor(g, h, c.next, j)
    ensures h.first < c.next ==> sim.tail == h.tail
  {
    hide HeadAt;
    if h.first < c.next {
      assert Whole(g, d, h.first);
      assert TailOf(g, c, sim.first) == TailAt(g, h.tail, h.first);
      Between(g, h.first);
    }
  }

  /** Once the chunk is in the data, the header before it and the cursor after it both reach its end. */
  lemma ChunkIn(g: Layout, d: seq<Word>, e: seq<Word>, c: Cursor, hd: Cursor, sim: Cursor, j: nat)
    requires Planning(g, d, c, sim, j) && sim.next == j <= WRAP && c.next < j && ChunkOk(g, c.next, j)
    requires Supports(g, e, hd, c.next) && RoomFor(g, hd, c.next, j)
    requires hd.first < c.next ==> sim.first == hd.first && sim.tail == hd.tail
    requires hd.first >= c.next ==> sim.first == c.next
    requires MarksIn(g, e, c.next, j) && WholeIn(g, e, c.next, j)
    ensures Supports(g, e, hd, j)
    ensures Intact(g, e, sim.(last := LastOf(g, j)))
  {
    hide HeadAt;
    var i := c.next;
    forall m | i <= m < j ensures WrapAt(g, e, Head(g, m)) == Pos(g, m) {
      assert Whole(g, e, m);
      Between(g, m);
      SizeBound(g, m);
      if Pos(g, m) == Head(g, m) {
        assert e[Pos(g, m) + 0] == Part(m, 0);
      }
    }
    assert Held(g, e, hd.tail, hd.first, j);
    if hd.first >= i {
      ChunkFits(g, i, j, j);
      assert Whole(g, e, i);
      assert e[Pos(g, i) + 0] == Part(i, 0);
    }
  }

  /** Each number dropped for a chunk had to go. */
  lemma ForcedAll(g: Layout, c: Cursor, first: nat, n: nat)
    requires c.first <= first <= c.next < n && Forced(g, c, first, n) && (c.first < c.next ==> !Oversize(g, c.first))
    ensures AllMustGo(g, c.first, first, n)
  {
    hide HeadAt;
    forall f | c.first <= f < first ensures MustGo(g, f, n) {
      TailOrder(g, c.tail, c.first, first);
      Forward(g, c.first, f);
      Forward(g, f, first - 1);
      Forward(g, first - 1, first);
      Forward(g, first, n);
      if first - 1 == c.first {
        TailOrder(g, c.tail, c.first, n);
      }
      if Within(HeadAt(g, f), HeadAt(g, n)) {
        WithinShrinks(HeadAt(g, f), TailOf(g, c, first - 1), HeadAt(g, n), HeadAt(g, n));
      }
    }
  }

  ghost predicate AllMustGo(g: Layout, a: nat, b: nat, n: nat) {
    forall f | a <= f < b :: MustGo(g, f, n)
  }

  lemma AllMustGoJoins(g: Layout, a: nat, b: nat, e: nat, m: nat, n: nat)
    requires AllMustGo(g, a, b, m) && AllMustGo(g, b, e, n) && b <= m <= n
    ensures AllMustGo(g, a, e, n)
  {
    hide HeadAt;
    forall f | a <= f < b ensures MustGo(g, f, n) {
      assert MustGo(g, f, m);
      Forward(g, f, m);
      Forward(g, m, n);
      if Within(HeadAt(g, f), HeadAt(g, n)) {
        WithinShrinks(HeadAt(g, f), HeadAt(g, f), HeadAt(g, m), HeadAt(g, n));
      }
    }
  }

  /** The whole plan for a chunk: places, drops, and the mark the new header will carry. */
  method PlanFor(g: Layout, d: seq<Word>, c: Cursor, recs: seq<Record>, watch: seq<nat>, lost: seq<(nat, Hlc)>, j: nat,
                 ghost base: seq<(nat, Hlc)>, ghost a: nat)
    returns (sim: Cursor, l: seq<(nat, Hlc)>, plan: seq<Placing>, last: Option<(Hlc, nat)>)
    requires Intact(g, d, c) && ChunkOk(g, c.next, j) && c.next < j == c.next + |recs| <= WRAP
    requires forall k | 0 <= k < |recs| :: recs[k] == g.stream(c.next + k)
    requires a <= c.first && lost == base + LostBetween(g, watch, a, c.first)
    ensures Planned(g, d, c, sim, plan, j) && c.first <= sim.first <= c.next && AllMustGo(g, c.first, sim.first, j)
    ensures l == base + LostBetween(g, watch, a, sim.first)
    ensures last == LastOf(g, j)
  {
    hide HeadAt;
    PlanStart(g, d, c);
    sim, l, plan := PlanChunk(g, d, c, watch, lost, j, base, a);
    ForcedAll(g, c, sim.first, j);
    var r := recs[|recs| - 1];
    assert c.next + (|recs| - 1) == j - 1;
    last := Some((r.hlc, r.walId));
  }

  /** Drop every entry, for what it reports. */
  method DropAll(g: Layout, d: seq<Word>, c: Cursor, watch: seq<nat>, lost: seq<(nat, Hlc)>,
      ghost base: seq<(nat, Hlc)>, ghost a: nat)
    returns (l: seq<(nat, Hlc)>)
    requires Intact(g, d, c)
    requires a <= c.first && lost == base + LostBetween(g, watch, a, c.first)
    ensures l == base + LostBetween(g, watch, a, c.next)
  {
    var sim := c;
    l := lost;
    while sim.first < c.next
      invariant c.first <= sim.first <= c.next == sim.next && sim.tail < g.cap && sim.head < g.cap
      invariant Held(g, d, sim.tail, sim.first, c.next)
      invariant l == base + LostBetween(g, watch, a, sim.first)
    {
      sim, l := DropHeld(g, d, sim, c.next, watch, l, base, a);
    }
  }

  lemma SkipSupports(g: Layout, d: seq<Word>, c: Cursor, s: Cursor)
    requires Intact(g, d, c) && Oversize(g, c.next) && c.next < WRAP
    requires s == Cursor(c.head, c.head, c.next + 1, c.next + 1, LastOf(g, c.next + 1))
    ensures Intact(g, d, s)
  {
  }

  // ---- Walking ----

  /** A reader at `at` meets entry `k` next. */
  ghost predicate AtEntry(g: Layout, d: seq<Word>, k: nat, at: nat) {
    |d| == g.cap && at < g.cap && WrapAt(g, d, at) == Pos(g, k)
  }

  lemma WalkStart(g: Layout, d: seq<Word>, c: Cursor)
    requires Intact(g, d, c) && c.first < c.next
    ensures AtEntry(g, d, c.first, c.tail)
  {
    hide HeadAt;
    assert Whole(g, d, c.first);
  }

  lemma WalkMark(g: Layout, d: seq<Word>, c: Cursor, k: nat)
    requires Intact(g, d, c) && c.first <= k < c.next
    ensures AtEntry(g, d, k, Pos(g, k))
  {
    hide HeadAt;
    assert Whole(g, d, k);
    assert d[Pos(g, k) + 0] == Part(k, 0);
  }

  lemma WalkStep(g: Layout, d: seq<Word>, c: Cursor, k: nat)
    requires Intact(g, d, c) && c.first <= k < c.next
    ensures Pos(g, k) < g.cap && EntryAt(g, d, Pos(g, k)) == Some(HeaderOf(g, k))
    ensures k + 1 < c.next ==> AtEntry(g, d, k + 1, Fold(g.cap, Pos(g, k) + Size(g, k)))
  {
    hide HeadAt;
    assert Whole(g, d, k);
    WholeIsEntry(g, d, k);
    Between(g, k);
    if k + 1 < c.next {
      assert Whole(g, d, k + 1);
    }
  }

  lemma PayloadIn(g: Layout, d: seq<Word>, c: Cursor, k: nat)
    requires Intact(g, d, c) && c.first <= k < c.next
    ensures Pos(g, k) + Size(g, k) <= g.cap == |d|
    ensures forall i | 0 <= i < |g.stream(k).payload| :: Value(g, d[Pos(g, k) + HDR + i]) == g.stream(k).payload[i]
  {
    hide HeadAt;
    assert Whole(g, d, k);
    forall i | 0 <= i < |g.stream(k).payload| ensures Value(g, d[Pos(g, k) + HDR + i]) == g.stream(k).payload[i] {
      assert d[Pos(g, k) + (HDR + i)] == Part(k, HDR + i);
    }
  }

  /** Read the header of entry `k` from `at`, and where to go on. Nothing in an intact log fails to be read. */
  method Meet(g: Layout, d: seq<Word>, c: Cursor, k: nat, at: nat) returns (a: nat, e: Header, after: nat)
    requires Intact(g, d, c) && c.first <= k < c.next && AtEntry(g, d, k, at)
    ensures a == Pos(g, k) && e == HeaderOf(g, k)
    ensures k + 1 < c.next ==> AtEntry(g, d, k + 1, after)
  {
    hide HeadAt, Held, Home, Shape, Within, TailAt, Whole, EntryAt;
    WalkStep(g, d, c, k);
    a := WrapAt(g, d, at);
    var found := EntryAt(g, d, a);
    if found.None? || found.value.no != k {
      assert false;
    }
    e := found.value;
    after := Fold(g.cap, a + SizeOf(e.len));
  }

  /** Walk from entry `k` to entry `no`. */
  method WalkTo(g: Layout, d: seq<Word>, c: Cursor, k: nat, at: nat, no: nat) returns (a: nat)
    requires Intact(g, d, c) && c.first <= k <= no < c.next && AtEntry(g, d, k, at)
    ensures AtEntry(g, d, no, a)
  {
    hide Supports, AtEntry;
    a := at;
    for i := k to no
      invariant AtEntry(g, d, i, a)
    {
      var _, _, after := Meet(g, d, c, i, a);
      a := after;
    }
  }

  ghost predicate MarksAre(g: Layout, marks: seq<(nat, nat)>, first: nat, next: nat) {
    && (forall i | 0 <= i < |marks| :: first <= marks[i].0 < next && marks[i].1 == Pos(g, marks[i].0))
    && (forall i, j | 0 <= i < j < |marks| :: marks[i].0 < marks[j].0)
  }

  /** Every 64th number has a mark. */
  ghost predicate MarksAll(marks: seq<(nat, nat)>, first: nat, next: nat) {
    forall k | first <= k < next && k % MARK_EVERY == 0 :: MarkOf(marks, k)
  }

  ghost predicate MarkOf(marks: seq<(nat, nat)>, k: nat) {
    exists i | 0 <= i < |marks| :: marks[i].0 == k
  }

  lemma MarkMore(marks: seq<(nat, nat)>, more: seq<(nat, nat)>, k: nat)
    requires MarkOf(marks, k)
    ensures MarkOf(marks + more, k)
  {
    var i :| 0 <= i < |marks| && marks[i].0 == k;
    assert (marks + more)[i].0 == k;
  }

  /** One more number, with a mark if it is to have one. */
  lemma MarksNext(marks: seq<(nat, nat)>, first: nat, k: nat, at: nat)
    requires MarksAll(marks, first, k)
    ensures MarksAll(if k % MARK_EVERY == 0 then marks + [(k, at)] else marks, first, k + 1)
  {
    var more := if k % MARK_EVERY == 0 then marks + [(k, at)] else marks;
    forall n | first <= n < k + 1 && n % MARK_EVERY == 0 ensures MarkOf(more, n) {
      if n < k {
        MarkMore(marks, [(k, at)], n);
      } else {
        assert more[|marks|].0 == k;
      }
    }
  }

  /** The last mark at or before `no`, if there is one, is less than 64 before it, and so is the first number if not. */
  lemma MarkIsNear(marks: seq<(nat, nat)>, first: nat, next: nat, no: nat, k: nat)
    requires MarksAll(marks, first, next) && first <= k <= no < next
    requires forall i | 0 <= i < |marks| && marks[i].0 <= no :: marks[i].0 <= k
    ensures no - k < MARK_EVERY
  {
    var m := no - no % MARK_EVERY;
    if first <= m {
      assert MarkOf(marks, m);
    }
  }

  lemma MarksFrom(marks: seq<(nat, nat)>, first: nat, later: nat, next: nat)
    requires MarksAll(marks, first, next) && first <= later
    ensures MarksAll(marks, later, next)
  {
  }

  lemma MarksDrop(marks: seq<(nat, nat)>, first: nat, next: nat)
    requires MarksAll(marks, first, next) && |marks| > 0 && marks[0].0 < first
    ensures MarksAll(marks[1..], first, next)
  {
    forall k | first <= k < next && k % MARK_EVERY == 0 ensures MarkOf(marks[1..], k) {
      assert MarkOf(marks, k);
      var i :| 0 <= i < |marks| && marks[i].0 == k;
      assert marks[1..][i - 1].0 == k;
    }
  }

  lemma NoneToMark(marks: seq<(nat, nat)>, first: nat)
    ensures MarksAll(marks, first, first)
  {
  }

  /** The marks of an opened log, made by walking from the tail. */
  method WalkMarks(g: Layout, d: seq<Word>, c: Cursor) returns (marks: seq<(nat, nat)>)
    requires Intact(g, d, c) && c.first < c.next
    ensures MarksAre(g, marks, c.first, c.next) && MarksAll(marks, c.first, c.next)
  {
    hide Supports, AtEntry, Pos, MarksAll;
    marks := [];
    assert MarksAll(marks, c.first, c.first) by {
      NoneToMark(marks, c.first);
    }
    var at := c.tail;
    WalkStart(g, d, c);
    for k := c.first to c.next
      invariant k < c.next ==> AtEntry(g, d, k, at)
      invariant MarksAre(g, marks, c.first, k) && MarksAll(marks, c.first, k)
    {
      var a, _, after := Meet(g, d, c, k, at);
      MarksNext(marks, c.first, k, a);
      if k % MARK_EVERY == 0 {
        marks := marks + [(k, a)];
      }
      at := after;
    }
  }

  /** What a read from `pos` may return. */
  ghost predicate ReadsFrom(g: Layout, c: Cursor, pos: nat, maxBytes: nat, out: seq<Entry>) {
    && pos + |out| <= c.next && (pos < c.next ==> |out| > 0)
    && (forall i | 0 <= i < |out| :: out[i] == EntryOf(g, pos + i))
    && (pos + |out| < c.next ==> maxBytes <= Bytes(g, pos, pos + |out|))
    && (|out| > 1 ==> Bytes(g, pos, pos + |out| - 1) < maxBytes)
  }

  method ReadFrom(g: Layout, d: seq<Word>, c: Cursor, pos: nat, at0: nat, maxBytes: nat) returns (out: seq<Entry>)
    requires Intact(g, d, c) && c.first <= pos < c.next && AtEntry(g, d, pos, at0)
    ensures ReadsFrom(g, c, pos, maxBytes, out)
  {
    hide Supports, AtEntry, Pos;
    out := [];
    var at, bytes, no := at0, 0, pos;
    while no < c.next
      invariant pos <= no <= c.next && |out| == no - pos
      invariant no < c.next ==> AtEntry(g, d, no, at)
      invariant forall i | 0 <= i < |out| :: out[i] == EntryOf(g, pos + i)
      invariant bytes == Bytes(g, pos, no) && (no > pos ==> bytes < maxBytes)
    {
      var x, after := ReadOne(g, d, c, no, at);
      bytes := bytes + g.stream(no).len;
      out := out + [x];
      at := after;
      no := no + 1;
      if bytes >= maxBytes {
        break;
      }
    }
  }

  method ReadOne(g: Layout, d: seq<Word>, c: Cursor, k: nat, at: nat) returns (x: Entry, after: nat)
    requires Intact(g, d, c) && c.first <= k < c.next && AtEntry(g, d, k, at)
    ensures x == EntryOf(g, k)
    ensures k + 1 < c.next ==> AtEntry(g, d, k + 1, after)
  {
    hide Supports, AtEntry, Pos, Value;
    var a, e;
    a, e, after := Meet(g, d, c, k, at);
    PayloadIn(g, d, c, k);
    var n := SizeOf(e.len) - HDR;
    x := Entry(k, e.hlc, seq<nat>(n, i requires 0 <= i < n && a + HDR + n <= |d| => Value(g, d[a + HDR + i])));
    assert x.payload == g.stream(k).payload;
  }
}
