/**
 The change log itself (crates/enchudb-engine/src/change_log.rs): a circular area of numbered
 entries, appended in chunks, read from any kept number, and safe to lose power at any moment.

 `data` and `header` are the mapped file. What the disk holds lags behind: `words` and `headers`
 are the values each word and the header may have there, and `images` records them after every
 write and every flush, so that a claim about all images is a claim about every moment to stop at.
 */
module ChangeLogStore {
  import opened Wrappers
  import opened ChangeLogLayout
  import opened ChangeLogRecovery
  import opened ChangeLogChunk
  import opened ChangeLogSteps

  class ChangeLog {
    const g: Layout
    const data: array<Word>
    var header: Cursor
    var c: Cursor
    var marks: seq<(nat, nat)>
    var marked: bool
    ghost var words: seq<set<Word>>
    ghost var headers: set<Cursor>
    ghost var images: seq<Image>

    /** Everything written has reached the disk. */
    ghost predicate Synced()
      reads this, data
    {
      |words| == data.Length && (forall p | 0 <= p < data.Length :: words[p] == {data[p]}) && headers == {header}
    }

    ghost predicate MarksOk()
      reads this
    {
      MarksAre(g, marks, c.first, c.next) && (marked ==> MarksAll(marks, c.first, c.next))
    }

    ghost predicate Idle()
      reads this, data
    {
      && data.Length == g.cap && Synced()
      && Intact(g, data[..], c) && Supports(g, data[..], header, c.next)
      && header.first == c.first && header.tail == c.tail
    }

    ghost predicate Valid()
      reads this, data
    {
      Idle() && c.first <= c.next && MarksOk()
    }

    /** Stopping at any moment since image `a` is safe, and keeps the numbers before `n`. */
    ghost predicate SafeSince(a: nat, n: nat)
      reads this
    {
      forall i | a <= i < |images| :: CrashSafe(g, images[i], n)
    }

    /** At rest, a stop loses nothing: whatever is on disk recovers every number of the log. */
    lemma AtRestSafe()
      requires Valid()
      ensures CrashSafe(g, Image(words, headers), c.next)
    {
      hide HeadAt, Held, Home, Shape;
      SettledSafe(g, data[..], Image(words, headers), header, header, c.next);
    }

    /** `open`: take over a file that a stop left behind. */
    constructor Open(g: Layout, d: seq<Word>, h: Cursor)
      requires Recovers(g, d, h, 0)
      ensures this.g == g && Valid() && fresh(data)
      ensures data[..] == d && header == h && c == Restored(g, d, h) && marked == (c.first == c.next)
    {
      this.g := g;
      var a := new Word[g.cap](i requires 0 <= i < |d| => d[i]);
      data := a;
      header := h;
      marks := [];
      words, headers, images := seq(|d|, i requires 0 <= i < |d| => {d[i]}), {h}, [];
      var cur := h;
      while GoesOn(g, d, cur)
        invariant cur.head < g.cap && cur.next <= WRAP
        invariant PickUp(g, d, cur) == PickUp(g, d, h)
        decreases WRAP - cur.next
      {
        var at := WrapAt(g, d, cur.head);
        cur := Picked(g, cur, at, EntryAt(g, d, at).value);
      }
      if cur.first == cur.next {
        cur := cur.(tail := cur.head);
      }
      c := cur;
      marked := cur.first == cur.next;
      new;
      NoneToMark(marks, c.first);
      assert data[..] == d;
    }

    // ---- The mapped file ----

    method PutWord(p: nat, w: Word)
      requires p < data.Length == |words|
      modifies data, this`words, this`images
      ensures data[..] == old(data[..])[p := w]
      ensures words == old(words)[p := old(words)[p] + {w}]
      ensures images == old(images) + [Image(words, headers)]
    {
      data[p] := w;
      words := words[p := words[p] + {w}];
      images := images + [Image(words, headers)];
    }

    method PutHeader(h: Cursor)
      modifies this`header, this`headers, this`images
      ensures header == h && headers == old(headers) + {h}
      ensures images == old(images) + [Image(words, headers)]
    {
      header := h;
      headers := headers + {h};
      images := images + [Image(words, headers)];
    }

    method Flush()
      modifies this`words, this`headers, this`images
      ensures Synced()
      ensures images == old(images) + [Image(words, headers)]
    {
      words := seq(data.Length, p requires 0 <= p < data.Length reads data => {data[p]});
      headers := {header};
      images := images + [Image(words, headers)];
    }

    // ---- Writing a chunk ----

    /** Writes so far left the words header `hd` needs for numbers up to `n` as they were in `d`. */
    ghost predicate Guarded(d: seq<Word>, hd: Cursor, n: nat)
      reads this, data
    {
      && |words| == data.Length == g.cap && headers == {hd} && header == hd
      && Supports(g, d, hd, n)
      && (forall p | 0 <= p < g.cap :: data[p] in words[p])
      && (forall p, w | 0 <= p < g.cap && w in words[p] :: HomeWord(g, p, w))
      && (forall p | 0 <= p < g.cap && Needed(g, hd, n, p) :: words[p] == {d[p]})
    }

    method PutFree(p: nat, w: Word, ghost d: seq<Word>, ghost hd: Cursor, ghost n: nat, ghost since: nat)
      requires Guarded(d, hd, n) && SafeSince(since, n)
      requires p < g.cap && HomeWord(g, p, w) && !Needed(g, hd, n, p)
      modifies data, this`words, this`images
      ensures Guarded(d, hd, n) && SafeSince(since, n)
      ensures data[..] == old(data[..])[p := w]
      ensures old(images) <= images
    {
      PutWord(p, w);
      ImageSafe(g, d, Image(words, headers), n);
    }

    /** Write a wrap marker at `at`. */
    method PutMark(at: nat, ghost d: seq<Word>, ghost hd: Cursor, ghost n: nat, ghost since: nat)
      requires Guarded(d, hd, n) && SafeSince(since, n)
      requires at + HDR <= g.cap && forall p | at <= p < at + HDR :: !Needed(g, hd, n, p)
      modifies data, this`words, this`images
      ensures Guarded(d, hd, n) && SafeSince(since, n) && old(images) <= images
      ensures forall p | 0 <= p < g.cap ::
        data[p] == if at <= p < at + HDR then Mark(p - at) else old(data[p])
    {
      for i := 0 to HDR
        invariant Guarded(d, hd, n) && SafeSince(since, n) && old(images) <= images
        invariant forall p | 0 <= p < g.cap :: data[p] == if at <= p < at + i then Mark(p - at) else old(data[p])
      {
        PutFree(at + i, Mark(i), d, hd, n, since);
      }
    }

    /** Write words `lo..hi` of entry `no` in their place. */
    method PutParts(no: nat, lo: nat, hi: nat, ghost d: seq<Word>, ghost hd: Cursor, ghost n: nat, ghost since: nat)
      requires Guarded(d, hd, n) && SafeSince(since, n)
      requires lo <= hi <= Size(g, no) && !Oversize(g, no) && Pos(g, no) + Size(g, no) <= g.cap
      requires forall p | InEntry(g, no, p) :: !Needed(g, hd, n, p)
      modifies data, this`words, this`images
      ensures Guarded(d, hd, n) && SafeSince(since, n) && old(images) <= images
      ensures forall p | 0 <= p < g.cap ::
        data[p] == if lo <= p - Pos(g, no) < hi then Part(no, p - Pos(g, no)) else old(data[p])
    {
      var at := Pos(g, no);
      for i := lo to hi
        invariant Guarded(d, hd, n) && SafeSince(since, n) && old(images) <= images
        invariant forall p | 0 <= p < g.cap :: data[p] == if lo <= p - at < i then Part(no, p - at) else old(data[p])
      {
        assert InEntry(g, no, at + i);
        PutFree(at + i, Part(no, i), d, hd, n, since);
      }
    }

    /** Write entry `no`: its bytes, then its header. */
    method PutEntry(no: nat, ghost d: seq<Word>, ghost hd: Cursor, ghost n: nat, ghost since: nat)
      requires Guarded(d, hd, n) && SafeSince(since, n)
      requires !Oversize(g, no) && Pos(g, no) + Size(g, no) <= g.cap
      requires forall p | InEntry(g, no, p) :: !Needed(g, hd, n, p)
      modifies data, this`words, this`images
      ensures Guarded(d, hd, n) && SafeSince(since, n) && old(images) <= images
      ensures forall p | 0 <= p < g.cap ::
        data[p] == if InEntry(g, no, p) then Part(no, p - Pos(g, no)) else old(data[p])
    {
      PutParts(no, HDR, Size(g, no), d, hd, n, since);
      PutParts(no, 0, HDR, d, hd, n, since);
    }

    method PutMarks(plan: seq<Placing>, i: nat, j: nat, ghost d: seq<Word>, ghost hd: Cursor, ghost since: nat)
      requires Guarded(d, hd, i) && SafeSince(since, i)
      requires i <= j == i + |plan| && PlanIs(g, plan, i) && ChunkOk(g, i, j) && RoomFor(g, hd, i, j)
      modifies data, this`words, this`images
      ensures Guarded(d, hd, i) && SafeSince(since, i) && old(images) <= images
      ensures MarksIn(g, data[..], i, j)
    {
      hide HeadAt;
      for m := i to j
        invariant Guarded(d, hd, i) && SafeSince(since, i) && old(images) <= images
        invariant MarksIn(g, data[..], i, m)
      {
        assert plan[m - i] == PlacingOf(g, m);
        PutMarkOf(plan[m - i], m, i, j, d, hd, since);
      }
    }

    method PutMarkOf(p: Placing, ghost m: nat, ghost i: nat, ghost j: nat, ghost d: seq<Word>, ghost hd: Cursor,
        ghost since: nat)
      requires Guarded(d, hd, i) && SafeSince(since, i) && MarksIn(g, data[..], i, m)
      requires p == PlacingOf(g, m) && ChunkOk(g, i, j) && i <= m < j && RoomFor(g, hd, i, j)
      modifies data, this`words, this`images
      ensures Guarded(d, hd, i) && SafeSince(since, i) && old(images) <= images
      ensures MarksIn(g, data[..], i, m + 1)
    {
      hide HeadAt;
      if p.wrap.Some? {
        NotNeeded(g, hd, i, j, m);
        ghost var before := data[..];
        PutMark(p.wrap.value, d, hd, i, since);
        MarkKeepsChunk(g, before, data[..], i, j, m);
      }
    }

    method PutEntries(plan: seq<Placing>, i: nat, j: nat, ghost d: seq<Word>, ghost hd: Cursor, ghost since: nat)
      requires Guarded(d, hd, i) && SafeSince(since, i)
      requires i <= j == i + |plan| && PlanIs(g, plan, i) && ChunkOk(g, i, j) && RoomFor(g, hd, i, j) && j <= WRAP
      requires MarksIn(g, data[..], i, j)
      modifies data, this`words, this`images
      ensures Guarded(d, hd, i) && SafeSince(since, i) && old(images) <= images
      ensures MarksIn(g, data[..], i, j) && WholeIn(g, data[..], i, j)
    {
      hide HeadAt;
      for m := i to j
        invariant Guarded(d, hd, i) && SafeSince(since, i) && old(images) <= images
        invariant MarksIn(g, data[..], i, j) && WholeIn(g, data[..], i, m)
      {
        NotNeeded(g, hd, i, j, m);
        Between(g, m);
        ghost var before := data[..];
        PutEntry(m, d, hd, i, since);
        EntryKeepsChunk(g, before, data[..], i, j, m);
      }
    }

    /** Write and flush a header that leaves out what the chunk will overwrite, if it overwrites anything. */
    method Shrink(sim: Cursor, ghost j: nat)
      requires Valid() && Planning(g, data[..], c, sim, j) && sim.next == j && c.first <= sim.first <= c.next
      modifies this`header, this`headers, this`words, this`images
      ensures Synced() && Guarded(data[..], header, c.next) && RoomFor(g, header, c.next, j)
      ensures header.first < c.next ==> sim.first == header.first && sim.tail == header.tail
      ensures c.next <= header.first ==> sim.first == c.next
      ensures old(images) <= images && SafeSince(|old(images)|, c.next)
    {
      hide HeadAt, Held, Shape, Planning, Within, TailAt;
      if sim.first != c.first {
        ShrunkSupports(g, data[..], c, sim, j);
        ghost var h := header;
        PutHeader(Shrunk(c, sim));
        SettledSafe(g, data[..], Image(words, headers), h, header, c.next);
        Flush();
        SettledSafe(g, data[..], Image(words, headers), header, header, c.next);
      } else {
        OldHeaderRoom(g, data[..], c, header, sim, j);
      }
    }

    /** Write and flush the entries of a chunk, with their wrap markers. */
    method PutChunk(plan: seq<Placing>, i: nat, j: nat, ghost since: nat)
      requires Synced() && Guarded(data[..], header, i) && SafeSince(since, i)
      requires i <= j == i + |plan| && PlanIs(g, plan, i) && ChunkOk(g, i, j) && RoomFor(g, header, i, j) && j <= WRAP
      modifies data, this`words, this`headers, this`images
      ensures Synced() && Supports(g, data[..], header, i)
      ensures MarksIn(g, data[..], i, j) && WholeIn(g, data[..], i, j)
      ensures old(images) <= images && SafeSince(since, i)
    {
      ghost var d := data[..];
      PutMarks(plan, i, j, d, header, since);
      PutEntries(plan, i, j, d, header, since);
      assert Home(g, data[..]);
      SupportsFrame(g, d, data[..], header, i);
      Flush();
      SettledSafe(g, data[..], Image(words, headers), header, header, i);
    }

    /** Write and flush the header of a new cursor. */
    method Commit(next: Cursor, ghost i: nat, ghost since: nat)
      requires data.Length == g.cap && Synced() && Intact(g, data[..], next) && Supports(g, data[..], header, i)
      requires i <= next.next && SafeSince(since, i) && since <= |images|
      modifies this`header, this`headers, this`words, this`images, this`c
      ensures Idle() && c == header == next
      ensures old(images) <= images && SafeSince(since, i)
    {
      hide HeadAt, Held, Home, Shape;
      ghost var h := header;
      c := next;
      PutHeader(next);
      SettledSafe(g, data[..], Image(words, headers), h, next, i);
      Flush();
      SettledSafe(g, data[..], Image(words, headers), next, next, i);
    }

    /** The three flushed phases of an append: shrink the header, write the entries, write the new header. */
    method Install(sim: Cursor, plan: seq<Placing>, i: nat, j: nat, last: Option<(Hlc, nat)>)
      requires Valid() && Planned(g, data[..], c, sim, plan, j) && ChunkOk(g, i, j)
      requires i == c.next < j <= WRAP && last == LastOf(g, j)
      modifies data, this`header, this`headers, this`words, this`images, this`c
      ensures Idle() && c == sim.(last := last)
      ensures old(images) <= images && SafeSince(old(|images|), i)
    {
      ghost var since, d, c0 := |images|, data[..], c;
      Shrink(sim, j);
      PutChunk(plan, i, j, since);
      ChunkIn(g, d, data[..], c0, header, sim, j);
      SupportsLess(g, data[..], header, i, j);
      Commit(sim.(last := last), i, since);
    }

    /** Append one chunk. */
    method AppendChunk(recs: seq<Record>, watch: seq<nat>, lost: seq<(nat, Hlc)>, j: nat, ghost base: seq<(nat, Hlc)>,
        ghost a: nat)
      returns (l: seq<(nat, Hlc)>)
      requires a <= c.first && lost == base + LostBetween(g, watch, a, c.first)
      requires Valid() && 0 < |recs| && j == c.next + |recs| <= WRAP && ChunkOk(g, c.next, j)
      requires forall k | 0 <= k < |recs| :: recs[k] == g.stream(c.next + k)
      modifies this, data
      ensures Valid() && c.next == j
      ensures old(c.first) <= c.first <= old(c.next) && AllMustGo(g, old(c.first), c.first, j)
      ensures l == base + LostBetween(g, watch, a, c.first)
      ensures old(images) <= images && SafeSince(old(|images|), old(c.next))
    {
      hide HeadAt, Held, Shape, Home, Within, TailAt, Live;
      var i := c.next;
      var sim, plan, last;
      sim, l, plan, last := PlanFor(g, data[..], c, recs, watch, lost, j, base, a);
      ghost var was := c.first;
      Install(sim, plan, i, j, last);
      if marked {
        MarksFrom(marks, was, c.first, i);
      }
      UpdateMarks(plan, i);
    }

    /** Forget the marks of dropped entries, add one for every 64th entry of the chunk. */
    method UpdateMarks(plan: seq<Placing>, i: nat)
      requires PlanIs(g, plan, i) && c.next == i + |plan| && c.first <= i
      requires forall x | 0 <= x < |marks| :: marks[x].0 < i && marks[x].1 == Pos(g, marks[x].0)
      requires forall x, y | 0 <= x < y < |marks| :: marks[x].0 < marks[y].0
      requires marked ==> MarksAll(marks, c.first, i)
      modifies this`marks
      ensures MarksOk()
    {
      hide HeadAt, MarksAll;
      while |marks| > 0 && marks[0].0 < c.first
        invariant forall x | 0 <= x < |marks| :: marks[x].0 < i && marks[x].1 == Pos(g, marks[x].0)
        invariant forall x, y | 0 <= x < y < |marks| :: marks[x].0 < marks[y].0
        invariant marked ==> MarksAll(marks, c.first, i)
        decreases |marks|
      {
        if marked {
          MarksDrop(marks, c.first, i);
        }
        marks := marks[1..];
      }
      if marked {
        for k := 0 to |plan|
          invariant forall x | 0 <= x < |marks| :: c.first <= marks[x].0 < i + k && marks[x].1 == Pos(g, marks[x].0)
          invariant forall x, y | 0 <= x < y < |marks| :: marks[x].0 < marks[y].0
          invariant MarksAll(marks, c.first, i + k)
        {
          MarksNext(marks, c.first, i + k, plan[k].at);
          if (i + k) % MARK_EVERY == 0 {
            marks := marks + [(i + k, plan[k].at)];
          }
        }
      }
    }

    /** A record too large for the log: every entry goes, and the number is used up. */
    method SkipOne(r: Record, watch: seq<nat>, lost: seq<(nat, Hlc)>, ghost base: seq<(nat, Hlc)>, ghost a: nat)
      returns (l: seq<(nat, Hlc)>)
      requires a <= c.first && lost == base + LostBetween(g, watch, a, c.first)
      requires Valid() && c.next < WRAP && Oversize(g, c.next) && r == g.stream(c.next)
      modifies this`header, this`headers, this`words, this`images, this`c, this`marks, this`marked
      ensures Valid() && c.next == c.first == old(c.next) + 1
      ensures l == base + LostBetween(g, watch, a, c.first)
      ensures old(images) <= images && SafeSince(old(|images|), old(c.next))
    {
      var limit := c.next;
      hide HeadAt, Held, Shape, Home, Within, TailAt;
      l := DropAll(g, data[..], c, watch, lost, base, a);
      var next := Cursor(c.head, c.head, limit + 1, limit + 1, Some((r.hlc, r.walId)));
      SkipSupports(g, data[..], c, next);
      Commit(next, limit, |images|);
      marks, marked := [], true;
      NoneToMark(marks, c.first);
    }

    lemma LastIs()
      requires Idle()
      ensures c.last == LastOf(g, c.next)
    {
    }

    /** Append records in number order, dropping the oldest entries to make room. */
    method AppendFrom(recs: seq<Record>, watch: seq<nat>, lost: seq<(nat, Hlc)>) returns (l: seq<(nat, Hlc)>)
      requires Valid() && c.next + |recs| <= WRAP
      requires forall k | 0 <= k < |recs| :: recs[k] == g.stream(c.next + k)
      modifies this, data
      ensures Valid() && c.next == old(c.next) + |recs|
      ensures old(c.first) <= c.first && AllMustGo(g, old(c.first), c.first, c.next)
      ensures lost <= l && Reports(g, watch, old(c.first), c.first, l[|lost|..])
      ensures recs != [] ==> var r := recs[|recs| - 1]; c.last == Some((r.hlc, r.walId))
      ensures old(images) <= images && SafeSince(old(|images|), old(c.next))
      ensures CrashSafe(g, Image(words, headers), c.next)
    {
      hide HeadAt, Idle, MarksOk, CrashSafe, MustGo;
      var i := 0;
      ghost var n0, f0, since := c.next, c.first, |images|;
      l := lost;
      while i < |recs|
        invariant i <= |recs| && Valid() && c.next == n0 + i && f0 <= c.first
        invariant AllMustGo(g, f0, c.first, c.next)
        invariant l == lost + LostBetween(g, watch, f0, c.first)
        invariant old(images) <= images && SafeSince(since, n0)
        decreases |recs| - i
      {
        ghost var c1, before := c, images;
        i, l := AppendSome(recs, i, watch, l, lost, f0);
        AllMustGoJoins(g, f0, c1.first, c.first, c1.next, c.next);
        SafeJoins(before, since, n0, c1.next);
      }
      AtRestSafe();
      LastIs();
      assert recs != [] ==> recs[|recs| - 1] == g.stream(c.next - 1);
      LostExactly(g, watch, f0, c.first);
      assert l[|lost|..] == LostBetween(g, watch, f0, c.first);
    }

    /** One turn of `append_from`: a record too large on its own, or a chunk. */
    method AppendSome(recs: seq<Record>, i: nat, watch: seq<nat>, lost: seq<(nat, Hlc)>, ghost base: seq<(nat, Hlc)>,
        ghost a: nat)
      returns (j: nat, l: seq<(nat, Hlc)>)
      requires Valid() && i < |recs| && c.next + (|recs| - i) <= WRAP && a <= c.first
      requires forall k | i <= k < |recs| :: recs[k] == g.stream(c.next + (k - i))
      requires lost == base + LostBetween(g, watch, a, c.first)
      modifies this, data
      ensures i < j <= |recs| && Valid() && c.next == old(c.next) + (j - i)
      ensures old(c.first) <= c.first && AllMustGo(g, old(c.first), c.first, c.next)
      ensures l == base + LostBetween(g, watch, a, c.first)
      ensures old(images) <= images && SafeSince(old(|images|), old(c.next))
    {
      hide HeadAt, Idle, MarksOk, Total;
      if recs[i].len > 2 * g.cap - 40 {
        ghost var n := c.next;
        j := i + 1;
        l := SkipOne(recs[i], watch, lost, base, a);
        assert Oversize(g, n) && n < c.next;
      } else {
        j := ChunkEnd(recs, i, c.next);
        l := AppendChunk(recs[i..j], watch, lost, c.next + (j - i), base, a);
      }
    }

    lemma SafeJoins(before: seq<Image>, since: nat, n: nat, m: nat)
      requires before <= images && since <= |before| && n <= m
      requires forall i | since <= i < |before| :: CrashSafe(g, before[i], n)
      requires SafeSince(|before|, m)
      ensures SafeSince(since, n)
    {
      forall i | since <= i < |images| ensures CrashSafe(g, images[i], n) {
        if i < |before| {
          assert images[i] == before[i];
        } else {
          assert CrashSafe(g, images[i], m);
        }
      }
    }

    /** How far one flush reaches from record `i`: at most a quarter of the area, at least one record. */
    method ChunkEnd(recs: seq<Record>, i: nat, n: nat) returns (j: nat)
      requires i < |recs| && recs[i].len <= 2 * g.cap - 40
      requires forall k | i <= k < |recs| :: recs[k] == g.stream(n + (k - i))
      ensures i < j <= |recs| && ChunkOk(g, n, n + (j - i))
      ensures j == |recs| || Oversize(g, n + (j - i)) || g.cap < 4 * Total(g, n, n + (j - i) + 1)
    {
      var chunk := 0;
      j := i;
      while j < |recs| && recs[j].len <= 2 * g.cap - 40
        invariant i <= j <= |recs|
        invariant chunk == Total(g, n, n + (j - i))
        invariant forall k | n <= k < n + (j - i) :: !Oversize(g, k)
        invariant 4 * chunk <= g.cap || j == i + 1
      {
        var size := SizeOf(recs[j].len);
        if j > i && 4 * (chunk + size) > g.cap {
          break;
        }
        chunk := chunk + size;
        j := j + 1;
      }
    }

    // ---- Reading ----

    /**
     The place of entry `no`, walked to from the nearest mark. The marks are made on the first search after an open.
     */
    method Locate(no: nat) returns (r: Option<nat>, ghost walked: nat)
      requires Valid()
      modifies this`marks, this`marked
      ensures Valid()
      ensures r == if c.first <= no < c.next then Some(Pos(g, no)) else None
      ensures walked < MARK_EVERY && (r.Some? ==> marked)
    {
      hide Supports, Pos, MarksAll;
      if no < c.first || no >= c.next {
        return None, 0;
      }
      WalkStart(g, data[..], c);
      if !marked {
        marks := WalkMarks(g, data[..], c);
        marked := true;
      }
      var k: nat, at: nat := c.first, c.tail;
      var i := 0;
      while i < |marks| && marks[i].0 <= no
        modifies {}
        invariant 0 <= i <= |marks| && c.first <= k <= no && AtEntry(g, data[..], k, at)
        invariant forall j | 0 <= j < i :: marks[j].0 <= k
      {
        k, at := marks[i].0, marks[i].1;
        WalkMark(g, data[..], c, k);
        i := i + 1;
      }
      MarkIsNear(marks, c.first, c.next, no, k);
      walked := no - k;
      at := WalkTo(g, data[..], c, k, at, no);
      r := Some(WrapAt(g, data[..], at));
    }

    /** Read entries from number `pos`: at least one if there is one, and no more once `maxBytes` is reached. */
    method Read(pos: nat, maxBytes: nat) returns (r: ReadResult)
      requires Valid()
      modifies this`marks, this`marked
      ensures Valid()
      ensures r.Ok? <==> c.first <= pos <= c.next
      ensures r.Truncated? ==> r.from == if pos < c.first then c.first else c.next
      ensures r.Ok? ==> ReadsFrom(g, c, pos, maxBytes, r.entries)
    {
      hide Supports, Pos, AtEntry;
      if pos < c.first || pos > c.next {
        return Truncated(if pos < c.first then c.first else c.next);
      }
      if pos == c.next {
        return Ok([]);
      }
      var at, _ := Locate(pos);
      WalkMark(g, data[..], c, pos);
      var out := ReadFrom(g, data[..], c, pos, at.value, maxBytes);
      r := Ok(out);
    }
  }

  /** A new file: nothing written, an empty range. */
  lemma NewFileOpens(g: Layout, d: seq<Word>)
    requires |d| == g.cap && forall p | 0 <= p < |d| :: d[p] == Blank
    ensures Recovers(g, d, Cursor(0, 0, 0, 0, None), 0)
  {
    SupportsRecovers(g, d, Cursor(0, 0, 0, 0, None), 0);
  }

  /**
   Open the file again after the machine stopped while an image was all there was on disk: whatever of it
   is found, the range is intact and keeps every number before `n`.
   */
  method OpenAfterStop(g: Layout, ghost img: Image, ghost n: nat, d: seq<Word>, h: Cursor) returns (log: ChangeLog)
    requires CrashSafe(g, img, n) && Leaves(img, d, h)
    ensures fresh(log) && fresh(log.data) && log.g == g && log.Valid()
    ensures n <= log.c.next && log.c.first == h.first
  {
    hide Supports;
    assert Recovers(g, d, h, n);
    log := new ChangeLog.Open(g, d, h);
  }
}
