/**
 What opening a change log finds (`ChangeLog::restore`), and why a stop at any moment is safe:
 a header that supports numbers up to `n` recovers at least those, whatever else the area holds.
 */
module ChangeLogRecovery {
  import opened Wrappers
  import opened ChangeLogLayout

  /** Whether the pick-up loop goes on from `c`. */
  predicate GoesOn(g: Layout, d: seq<Word>, c: Cursor)
    requires |d| == g.cap && c.head < g.cap
  {
    var at := WrapAt(g, d, c.head);
    var e := EntryAt(g, d, at);
    e.Some? && e.value.no == c.next && (c.first == c.next || FreeAt(g.cap, c, at, SizeOf(e.value.len)))
  }

  /** The pick-up loop of `restore`: take entries written after the header as long as they follow on. */
  function PickUp(g: Layout, d: seq<Word>, c: Cursor): Cursor
    requires |d| == g.cap && c.head < g.cap && c.next <= WRAP
    decreases WRAP - c.next
  {
    if GoesOn(g, d, c) then
      var at := WrapAt(g, d, c.head);
      PickUp(g, d, Picked(g, c, at, EntryAt(g, d, at).value))
    else c
  }

  function Picked(g: Layout, c: Cursor, at: nat, e: Header): Cursor {
    c.(head := Fold(g.cap, at + SizeOf(e.len)), next := c.next + 1, last := Some((e.hlc, e.walId)))
  }

  /** The cursor a log opens with. */
  function Restored(g: Layout, d: seq<Word>, h: Cursor): Cursor
    requires |d| == g.cap && h.head < g.cap && h.next <= WRAP
  {
    var c := PickUp(g, d, h);
    if c.first == c.next then c.(tail := c.head) else c
  }

  /** A spot range inside a lap-long one is within a lap too. */
  lemma WithinShrinks(t: Spot, u: Spot, v: Spot, s: Spot)
    requires t.Le(u) && u.Le(v) && v.Le(s) && Within(t, s)
    ensures Within(u, v) && Within(t, v)
  {
  }

  lemma TailOrder(g: Layout, tail: nat, first: nat, n: nat)
    requires first < n && !Oversize(g, first)
    ensures TailAt(g, tail, first).Le(PosAt(g, first))
    ensures HeadAt(g, first).Le(TailAt(g, tail, first))
    ensures TailAt(g, tail, first).Le(HeadAt(g, n)) && TailAt(g, tail, first) != HeadAt(g, n)
  {
    hide HeadAt;
    Between(g, first);
    SizeBound(g, first);
    Forward(g, first + 1, n);
  }

  /** What a cursor supports further on, it supports at its own number. */
  lemma SupportsLess(g: Layout, d: seq<Word>, h: Cursor, m: nat, n: nat)
    requires Supports(g, d, h, n) && h.next <= m <= n
    ensures Supports(g, d, h, m)
  {
    hide HeadAt;
    if h.first < m {
      assert Whole(g, d, h.first);
      TailOrder(g, h.tail, h.first, m);
      Forward(g, m, n);
      WithinShrinks(TailAt(g, h.tail, h.first), TailAt(g, h.tail, h.first), HeadAt(g, m), HeadAt(g, n));
    }
  }

  /** A supported number is picked up, at its place. */
  lemma SupportedGoesOn(g: Layout, d: seq<Word>, c: Cursor, n: nat)
    requires Supports(g, d, c, n) && c.next < n
    ensures GoesOn(g, d, c)
    ensures WrapAt(g, d, c.head) == Pos(g, c.next)
    ensures EntryAt(g, d, Pos(g, c.next)) == Some(HeaderOf(g, c.next))
  {
    hide HeadAt;
    assert Whole(g, d, c.next);
    WholeIsEntry(g, d, c.next);
    if c.first < c.next {
      var t := TailAt(g, c.tail, c.first);
      assert Whole(g, d, c.first);
      SupportsLess(g, d, c, c.next, n);
      TailOrder(g, c.tail, c.first, c.next);
      Between(g, c.next);
      Forward(g, c.next, c.next + 1);
      Forward(g, c.next + 1, n);
      WithinShrinks(t, t, HeadAt(g, c.next + 1), HeadAt(g, n));
      FreeAtIsRoom(g, c, t);
    }
  }

  /** What the loop picks up was supported: the entry is whole, in its place, and within a lap. */
  lemma GoesOnSupported(g: Layout, d: seq<Word>, c: Cursor)
    requires Intact(g, d, c) && GoesOn(g, d, c)
    ensures Supports(g, d, c, c.next + 1)
  {
    hide HeadAt;
    EntryIsWhole(g, d, WrapAt(g, d, c.head));
    Between(g, c.next);
    SizeBound(g, c.next);
    if c.first < c.next {
      assert Whole(g, d, c.first);
      TailOrder(g, c.tail, c.first, c.next);
      FreeAtIsRoom(g, c, TailAt(g, c.tail, c.first));
    }
  }

  lemma PickedSupports(g: Layout, d: seq<Word>, c: Cursor, n: nat)
    requires Supports(g, d, c, n) && c.next < n
    ensures Supports(g, d, Picked(g, c, Pos(g, c.next), HeaderOf(g, c.next)), n)
  {
    hide HeadAt;
    assert Whole(g, d, c.next);
    Between(g, c.next);
  }

  /** Opening finds at least the supported numbers, in an intact log. */
  lemma {:induction false} PickUpReaches(g: Layout, d: seq<Word>, c: Cursor, n: nat)
    requires Supports(g, d, c, n)
    ensures var r := PickUp(g, d, c);
      Intact(g, d, r) && n <= r.next && r.first == c.first && r.tail == c.tail
    decreases WRAP - c.next, if n == c.next then 1 else 0
  {
    hide HeadAt;
    if n == c.next && GoesOn(g, d, c) {
      GoesOnSupported(g, d, c);
      PickUpReaches(g, d, c, n + 1);
    } else if n > c.next {
      SupportedGoesOn(g, d, c, n);
      PickedSupports(g, d, c, n);
      PickUpReaches(g, d, Picked(g, c, Pos(g, c.next), HeaderOf(g, c.next)), n);
    }
  }

  /** The words a header needs for numbers up to `n`. */
  ghost predicate Needed(g: Layout, h: Cursor, n: nat, p: nat) {
    h.first < n && Live(TailAt(g, h.tail, h.first), HeadAt(g, n), p)
  }

  /** Every word the walk reads for a supported number is a needed one. */
  lemma NeededWords(g: Layout, d: seq<Word>, h: Cursor, n: nat, k: nat)
    requires Supports(g, d, h, n) && h.first <= k < n
    ensures forall p | Pos(g, k) <= p < Pos(g, k) + Size(g, k) :: Needed(g, h, n, p)
    ensures Needed(g, h, n, if k == h.first then h.tail else Head(g, k))
  {
    hide HeadAt;
    var t := TailAt(g, h.tail, h.first);
    assert Whole(g, d, h.first) && Whole(g, d, k);
    TailOrder(g, h.tail, h.first, n);
    Between(g, k);
    if h.first < k {
      TailOrder(g, h.tail, h.first, k);
    }
    EntryLive(g, t, n, k);
  }

  /** Words outside the needed ones may hold anything that is at home. */
  lemma SupportsFrame(g: Layout, d: seq<Word>, e: seq<Word>, h: Cursor, n: nat)
    requires Supports(g, d, h, n) && Home(g, e)
    requires forall p | 0 <= p < g.cap && Needed(g, h, n, p) :: e[p] == d[p]
    ensures Supports(g, e, h, n)
  {
    hide HeadAt;
    forall k | h.first <= k < n
      ensures Whole(g, e, k) && WrapAt(g, e, if k == h.first then h.tail else Head(g, k)) == Pos(g, k)
    {
      assert Whole(g, d, k);
      NeededWords(g, d, h, n, k);
    }
  }

  // ---- What a stop leaves behind ----

  /** The values each word, and the header, may have on disk if the machine stops now. */
  datatype Image = Image(words: seq<set<Word>>, headers: set<Cursor>)

  ghost predicate Leaves(img: Image, d: seq<Word>, h: Cursor) {
    |d| == |img.words| && (forall p | 0 <= p < |d| :: d[p] in img.words[p]) && h in img.headers
  }

  /** Opening `d` under header `h` gives an intact log that reaches number `n`, and the header supports all it found. */
  ghost predicate Recovers(g: Layout, d: seq<Word>, h: Cursor, n: nat) {
    && |d| == g.cap && h.head < g.cap && h.next <= WRAP
    && var r := Restored(g, d, h);
    && n <= r.next && Intact(g, d, r)
    && Supports(g, d, h, r.next) && r.first == h.first && r.tail == h.tail
  }

  ghost predicate CrashSafe(g: Layout, img: Image, n: nat) {
    forall d, h | Leaves(img, d, h) :: Recovers(g, d, h, n)
  }

  lemma SupportsRecovers(g: Layout, d: seq<Word>, h: Cursor, n: nat)
    requires Supports(g, d, h, n)
    ensures Recovers(g, d, h, n)
  {
    hide HeadAt;
    PickUpReaches(g, d, h, n);
    var r := PickUp(g, d, h);
    assert r.first == r.next ==> r.tail == r.head;
    assert Held(g, d, h.tail, h.first, r.next);
  }

  /** The numbers a header promises: those before `n`, or its own if it is further on. */
  function Reach(h: Cursor, n: nat): nat {
    if h.next > n then h.next else n
  }

  /** An image is safe when its headers support `n` over `d` and the words they need are settled. */
  lemma ImageSafe(g: Layout, d: seq<Word>, img: Image, n: nat)
    requires |d| == |img.words| == g.cap
    requires forall h | h in img.headers :: Supports(g, d, h, Reach(h, n))
    requires forall p, w | 0 <= p < g.cap && w in img.words[p] :: HomeWord(g, p, w)
    requires forall h, p | h in img.headers && 0 <= p < g.cap && Needed(g, h, Reach(h, n), p) :: img.words[p] == {d[p]}
    ensures CrashSafe(g, img, n)
  {
    hide HeadAt;
    forall e, h | Leaves(img, e, h) ensures Recovers(g, e, h, n) {
      assert Home(g, e);
      forall p | 0 <= p < g.cap && Needed(g, h, Reach(h, n), p) ensures e[p] == d[p] {
        assert e[p] in img.words[p];
      }
      SupportsFrame(g, d, e, h, Reach(h, n));
      SupportsRecovers(g, e, h, Reach(h, n));
    }
  }

  /** With all words settled, both headers there may be are safe ones. */
  lemma SettledSafe(g: Layout, d: seq<Word>, img: Image, h: Cursor, k: Cursor, n: nat)
    requires |d| == |img.words| == g.cap && forall p | 0 <= p < g.cap :: img.words[p] == {d[p]}
    requires img.headers == {h, k}
    requires Supports(g, d, h, Reach(h, n)) && Supports(g, d, k, Reach(k, n))
    ensures CrashSafe(g, img, n)
  {
    ImageSafe(g, d, img, n);
  }
}
