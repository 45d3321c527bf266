/**
 The arithmetic behind `append_chunk`: a chunk of at most a quarter of the area, with its wrap gaps,
 stays within one lap, so its entries never run into each other and never find the log too small.
 */
module ChangeLogChunk {
  import opened ChangeLogLayout
  import opened ChangeLogRecovery

  /** Words of entries `i..j`, without gaps. */
  ghost function Total(g: Layout, i: nat, j: nat): nat
    requires i <= j
    decreases j
  {
    if i == j then 0 else Total(g, i, j - 1) + Size(g, j - 1)
  }

  /** What `append_from` hands over in one go: at most a quarter of the area, or a single entry. */
  ghost predicate ChunkOk(g: Layout, i: nat, j: nat) {
    && i <= j
    && (forall k | i <= k < j :: !Oversize(g, k))
    && (4 * Total(g, i, j) <= g.cap || j == i + 1)
  }

  /** Each entry moves the head by less than twice its size, gap included, so a small total goes around once at most. */
  lemma {:induction false} Advance(g: Layout, i: nat, m: nat)
    requires i <= m && forall k | i <= k < m :: !Oversize(g, k)
    requires 4 * Total(g, i, m) <= g.cap + 3
    ensures var t, s, far := HeadAt(g, i), HeadAt(g, m), 2 * Total(g, i, m);
      || (s.lap == t.lap && t.off <= s.off <= t.off + far)
      || (s.lap == t.lap + 1 && g.cap + s.off <= t.off + far)
    decreases m
  {
    hide HeadAt;
    if i < m {
      Advance(g, i, m - 1);
      Between(g, m - 1);
    }
  }

  lemma {:induction false} TotalGrows(g: Layout, i: nat, m: nat, j: nat)
    requires i <= m <= j
    ensures Total(g, i, m) <= Total(g, i, j)
    decreases j
  {
    if m < j {
      TotalGrows(g, i, m, j - 1);
    }
  }

  /** A whole chunk stays within one lap of where it starts. */
  lemma ChunkFits(g: Layout, i: nat, j: nat, m: nat)
    requires ChunkOk(g, i, j) && i <= m <= j
    ensures Within(HeadAt(g, i), HeadAt(g, m))
  {
    hide HeadAt;
    TotalGrows(g, i, m, j);
    if j == i + 1 {
      SizeBound(g, i);
      assert Total(g, i, i) == 0;
      assert 4 * Total(g, i, j) <= g.cap + 3;
    }
    Advance(g, i, m);
  }

  ghost predicate InEntry(g: Layout, k: nat, p: nat) {
    Pos(g, k) <= p < Pos(g, k) + Size(g, k)
  }

  lemma EntriesApart(g: Layout, t: Spot, k: nat, m: nat)
    requires k < m && !Oversize(g, k) && !Oversize(g, m)
    requires t.Le(HeadAt(g, k)) && t.Le(PosAt(g, k)) && t.Le(HeadAt(g, m)) && t != HeadAt(g, m)
    requires Within(t, HeadAt(g, m)) && Within(t, HeadAt(g, m + 1))
    ensures forall p | InEntry(g, m, p) :: !InEntry(g, k, p)
    ensures !InEntry(g, m, Head(g, k))
    ensures Pos(g, m) != Head(g, m) ==> !InEntry(g, k, Head(g, m)) && Head(g, k) < Head(g, m)
  {
    hide HeadAt;
    EntryLive(g, t, m, k);
    EntryFresh(g, t, m, m);
    assert Pos(g, m) != Head(g, m) ==> !Live(t, HeadAt(g, m), Head(g, m));
    forall p | InEntry(g, m, p) ensures !InEntry(g, k, p) {
      assert !Live(t, HeadAt(g, m), p);
    }
  }

  /** Two entries of a chunk share no word, and the word a reader leaves from for one is not in the other. */
  lemma ChunkApart(g: Layout, i: nat, j: nat, k: nat, m: nat)
    requires ChunkOk(g, i, j) && i <= k < m < j
    ensures forall p | InEntry(g, m, p) :: !InEntry(g, k, p)
    ensures !InEntry(g, m, Head(g, k))
    ensures Pos(g, m) != Head(g, m) ==> !InEntry(g, k, Head(g, m)) && Head(g, k) < Head(g, m)
  {
    hide HeadAt;
    ChunkFits(g, i, j, m);
    ChunkFits(g, i, j, m + 1);
    Forward(g, i, k);
    Between(g, k);
    SizeBound(g, k);
    Forward(g, k + 1, m);
    EntriesApart(g, HeadAt(g, i), k, m);
  }

  /** A wrap gap is larger than half the area is far: the entry it sends to the start does not reach back to it. */
  lemma GapApart(g: Layout, m: nat)
    requires !Oversize(g, m) && Pos(g, m) != Head(g, m)
    ensures !InEntry(g, m, Head(g, m))
  {
    SizeBound(g, m);
  }

  // ---- Dropping ----

  /** Where the tail is once everything before `f` is dropped. */
  function TailOf(g: Layout, c: Cursor, f: nat): Spot {
    if f == c.first then TailAt(g, c.tail, c.first) else HeadAt(g, f)
  }

  /** Number `f` cannot stay if numbers up to `n` are to be kept. */
  ghost predicate NoRoom(g: Layout, c: Cursor, f: nat, n: nat) {
    !Within(TailOf(g, c, f), HeadAt(g, n))
  }

  lemma NoRoomLater(g: Layout, c: Cursor, f: nat, m: nat, n: nat)
    requires c.first <= f < m <= n && !Oversize(g, c.first) && NoRoom(g, c, f, m)
    ensures NoRoom(g, c, f, n)
  {
    hide HeadAt;
    TailOrder(g, c.tail, c.first, f + 1);
    Forward(g, f, m);
    Forward(g, m, n);
    Forward(g, f + 1, m);
    if Within(TailOf(g, c, f), HeadAt(g, n)) {
      WithinShrinks(TailOf(g, c, f), TailOf(g, c, f), HeadAt(g, m), HeadAt(g, n));
    }
  }

  /**
   Number `f`, and what follows up to `n`, does not fit in the area (or a record too large for the log came after).
   */
  ghost predicate MustGo(g: Layout, f: nat, n: nat) {
    !Within(HeadAt(g, f), HeadAt(g, n)) || exists m | f <= m < n :: Oversize(g, m)
  }

  /** The watched numbers in `a..b` whose entries were stored, with their stamps, in order. */
  ghost function LostBetween(g: Layout, watch: seq<nat>, a: nat, b: nat): seq<(nat, Hlc)>
    decreases b
  {
    if b <= a then []
    else LostBetween(g, watch, a, b - 1) +
         if b - 1 in watch && !Oversize(g, b - 1) then [(b - 1, g.stream(b - 1).hlc)] else []
  }

  ghost predicate Rising(l: seq<(nat, Hlc)>) {
    forall i, j | 0 <= i < j < |l| :: l[i].0 < l[j].0
  }

  /**
   What a caller may rely on: `l` names, in order and once each, exactly the watched numbers of `a..b` that were stored,
   with the stamps they were stored with.
   */
  ghost predicate Reports(g: Layout, watch: seq<nat>, a: nat, b: nat, l: seq<(nat, Hlc)>) {
    && Rising(l)
    && forall n: nat, h :: (n, h) in l <==> a <= n < b && n in watch && !Oversize(g, n) && h == g.stream(n).hlc
  }

  lemma RisesOn(l: seq<(nat, Hlc)>, n: nat, h: Hlc)
    requires Rising(l) && forall m: nat, x :: (m, x) in l ==> m < n
    ensures Rising(l + [(n, h)])
  {
    forall i | 0 <= i < |l| ensures l[i].0 < n {
      assert (l[i].0, l[i].1) in l;
    }
  }

  lemma LostStep(g: Layout, watch: seq<nat>, a: nat, b: nat, n: nat, h: Hlc)
    requires a <= b
    ensures (n, h) in LostBetween(g, watch, a, b + 1) <==>
      || (n, h) in LostBetween(g, watch, a, b)
      || (n == b && n in watch && !Oversize(g, n) && h == g.stream(n).hlc)
  {
    hide Oversize;
    var l := LostBetween(g, watch, a, b);
    assert (n, h) in l + [(b, g.stream(b).hlc)] <==> (n, h) in l || (n, h) == (b, g.stream(b).hlc);
  }

  lemma {:induction false} LostExactly(g: Layout, watch: seq<nat>, a: nat, b: nat)
    ensures Reports(g, watch, a, b, LostBetween(g, watch, a, b))
    decreases b
  {
    if a < b {
      hide Oversize, Rising;
      LostExactly(g, watch, a, b - 1);
      RisesOn(LostBetween(g, watch, a, b - 1), b - 1, g.stream(b - 1).hlc);
      forall n: nat, h ensures (n, h) in LostBetween(g, watch, a, b) <==>
        a <= n < b && n in watch && !Oversize(g, n) && h == g.stream(n).hlc
      {
        LostStep(g, watch, a, b - 1, n, h);
      }
    } else {
      assert LostBetween(g, watch, a, b) == [];
    }
  }

  lemma {:induction false} LostJoins(g: Layout, watch: seq<nat>, a: nat, b: nat, e: nat)
    requires a <= b <= e
    ensures LostBetween(g, watch, a, e) == LostBetween(g, watch, a, b) + LostBetween(g, watch, b, e)
    decreases e
  {
    if b < e {
      LostJoins(g, watch, a, b, e - 1);
    } else {
      assert LostBetween(g, watch, b, e) == [];
    }
  }
}
