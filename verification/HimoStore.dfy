/**
 One column and its index (crates/enchudb-engine/src/himo_store.rs). The column is the truth; the index is
 built when it is first asked for, and kept up from then on.
 */
module HimoStores {
  import opened Wrappers
  import opened Ordering
  import opened EidSorting
  import opened BucketReads
  import opened HimoIndex

  /** The eids of one value (crates/enchudb-engine/src/append_bucket.rs), with one writer. */
  class AppendBucket {
    const marked: bool
    var data: seq<nat>
    var cap: nat
    var live: nat
    var removed: bool
    var stale: seq<bool>
    var exact: bool
    var verified: Option<(nat, nat)>
    var rereads: nat

    ghost function Value(): Bucket
      reads this
    {
      Bucket(data, cap, live, removed, marked, stale, exact, verified, rereads)
    }

    constructor (cap: nat, marked: bool)
      ensures Value() == NewBucket(cap, marked)
    {
      this.marked := marked;
      data, this.cap, live, removed := [], cap, 0, false;
      stale, exact := seq(if marked then cap else 0, _ => false), true;
      verified, rereads := None, 0;
    }

    /** Add an entry. Returns where it is. A bucket right for a column is right for one in which `e` gains the value. */
    method Push(e: nat) returns (at: nat)
      requires Value().Shaped()
      modifies this
      ensures at == |old(data)| && Value() == Pushed(old(Value()), e)
      ensures forall v, col, col', on | BucketSound(old(Value()), v, col, on) && Gains(col, col', v, e) ::
        BucketSound(Value(), v, col', on)
    {
      hide BucketSound, Gains;
      at := |data|;
      if at >= cap {
        var ncap := if 2 * cap > INITIAL_CAP then 2 * cap else INITIAL_CAP;
        if marked {
          exact := exact || stale == [];
          stale := stale + seq(ncap - |stale|, _ => false);
        } else {
          exact := true;
        }
        cap := ncap;
      } else if stale == [] {
        exact := true;
      }
      data := data + [e];
      live := live + 1;
      forall v, col, col', on | BucketSound(old(Value()), v, col, on) && Gains(col, col', v, e)
        ensures BucketSound(Value(), v, col', on) {
        PushSound(old(Value()), v, col, col', on, e);
      }
    }

    /**
     An entry leaves the value: mark it if marks are in use, raise the flag, count it out. A bucket right for a column
     is right for one in which the entity at that place loses the value, and what is left is counted.
     */
    method NoteStale(at: Option<nat>, on: bool) returns (len: nat, after: nat)
      modifies this
      ensures Value() == Staled(old(Value()), at, on) && len == |data| && after == live
      ensures forall v, col, col', e
        | BucketSound(old(Value()), v, col, on) && LosesAt(old(Value()), v, col, col', e, at) ::
        BucketSound(Value(), v, col', on) && after == |Holders(col', v)|
    {
      hide BucketSound;
      if on && stale != [] {
        if at.Some? && at.value < |data| && at.value < |stale| {
          stale := stale[at.value := true];
        } else {
          exact := false;
        }
      }
      removed := true;
      if live > 0 {
        live := live - 1;
      }
      len, after := |data|, live;
      forall v, col, col', e | BucketSound(old(Value()), v, col, on) && LosesAt(old(Value()), v, col, col', e, at)
        ensures BucketSound(Value(), v, col', on) && after == |Holders(col', v)|
      {
        StaleSound(old(Value()), v, col, col', on, e, at);
        LeftCount(Value(), v, col', on);
      }
    }

    /** Keep what the column still holds at `v`, each once and ascending, in a new backing. */
    method Compact(col: Column, v: nat) returns (kept: seq<nat>)
      modifies this
      ensures Ascending(kept) && forall e :: e in kept <==> e in old(data) && Holds(col, e, v)
      ensures Value() == Compacted(old(Value()), kept)
    {
      var live0 := LiveOf(col, v, data);
      kept := SortedOnce(live0);
      var p := PowerAbove(|kept|);
      data, cap := kept, if p > INITIAL_CAP then p else INITIAL_CAP;
      stale, exact := seq(if marked then cap else 0, _ => false), true;
      live, verified, rereads, removed := |kept|, None, 0, false;
    }

    /** Note a read that had to verify. Returns how many such reads in a row saw no write. */
    method MarkVerified() returns (n: nat)
      modifies this`verified, this`rereads
      ensures Value() == Reread(old(Value())) && n == rereads
    {
      var len: nat := |data|;
      if verified == Some((len, live)) {
        rereads := rereads + 1;
      } else {
        rereads := 0;
      }
      verified := Some((len, live));
      n := rereads;
    }

    /** Copy the entries: all of them, or those without a mark when every stale one is marked. */
    method Read(useMarks: bool) returns (r: seq<nat>, verify: bool, churned: bool)
      requires Value().Shaped()
      ensures churned == removed && verify == (removed && !(useMarks && stale != [] && exact))
      ensures r == if removed && !verify then Unmarked(data, stale) else data
    {
      if removed && useMarks && stale != [] && exact {
        r := CopyUnmarked(data, stale, []);
        verify, churned := false, true;
        assert r == Unmarked(data, stale);
      } else {
        r, verify, churned := data, removed, removed;
      }
    }
  }

  /** Cells that have a value. */
  ghost function Filled(col: Column): set<nat> {
    set e | 0 <= e < |col| && col[e] != 0
  }

  function Sum(s: seq<int>): int {
    if s == [] then 0 else Sum(s[..|s| - 1]) + s[|s| - 1]
  }

  lemma {:induction false} SumUpdate(s: seq<int>, i: nat, d: int)
    requires i < |s|
    ensures Sum(s[i := s[i] + d]) == Sum(s) + d
  {
    var n := |s| - 1;
    if i == n {
      assert s[i := s[i] + d][..n] == s[..n];
    } else {
      SumUpdate(s[..n], i, d);
      assert s[i := s[i] + d][..n] == s[..n][i := s[i] + d];
    }
  }

  lemma {:induction false} SumZero(s: seq<int>)
    requires forall i | 0 <= i < |s| :: s[i] == 0
    ensures Sum(s) == 0
  {
    if s != [] {
      SumZero(s[..|s| - 1]);
    }
  }

  lemma FilledSet(col: Column, e: nat, x: nat)
    requires e < |col|
    ensures |Filled(col[e := x])| == |Filled(col)| + (if x != 0 then 1 else 0) - (if col[e] != 0 then 1 else 0)
  {
    var rest := Filled(col) - {e};
    assert Filled(col) == if col[e] != 0 then rest + {e} else rest;
    assert Filled(col[e := x]) == if x != 0 then rest + {e} else rest;
  }

  lemma FilledGrown(col: Column, e: nat)
    ensures Filled(Grown(col, e)) == Filled(col)
  {
    var g := Grown(col, e);
    assert forall i | 0 <= i < |col| :: g[i] == g[..|col|][i];
  }

  class HimoStore {
    const maxValue: nat
    const maxEntities: nat
    var col: Column
    var built: bool
    var buckets: map<nat, AppendBucket>
    var slots: map<nat, nat>
    var room: nat
    var on: bool
    var declared: bool
    var known: bool
    var base: int
    var stripes: seq<int>

    ghost function Idx(): Index
      reads this`buckets, buckets.Values
    {
      map v | v in buckets :: buckets[v].Value()
    }

    /** No two values share a bucket. */
    ghost predicate Separate()
      reads this`buckets
    {
      forall v, w | v in buckets && w in buckets && v != w :: buckets[v] != buckets[w]
    }

    ghost predicate Indexed()
      reads this, buckets.Values
    {
      IndexSound(Idx(), slots, col, on) && Separate() && forall e | e in slots :: e < room
    }

    /** The striped counters add up to the number of cells with a value. */
    ghost predicate Counted()
      reads this`col, this`known, this`base, this`stripes
    {
      |stripes| == 8 && (known ==> base + Sum(stripes) == |Filled(col)|)
    }

    ghost predicate Valid()
      reads this, buckets.Values
    {
      && Counted()
      && if built then Indexed() && AllSmall(Idx()) else buckets == map[] && slots == map[] && !on
    }

    /** A new column, or one read from a file. */
    constructor (maxValue: nat, maxEntities: nat, cells: Column, fromFile: bool)
      requires !fromFile ==> cells == []
      ensures Valid() && col == cells && !built && this.maxValue == maxValue
    {
      this.maxValue, this.maxEntities, col := maxValue, maxEntities, cells;
      built, buckets, slots, room, on, declared := false, map[], map[], 0, false, false;
      known, base, stripes := !fromFile, 0, seq(8, _ => 0);
      new;
      SumZero(stripes);
      assert cells == [] ==> Filled(col) == {};
    }

    // ---- The array of buckets ----

    /** Make the bucket of a value. */
    method MakeBucket(v: nat, cap: nat)
      requires Separate() && v !in buckets
      modifies this`buckets
      ensures Separate() && v in buckets && fresh(buckets[v]) && buckets == old(buckets)[v := buckets[v]]
      ensures Idx() == old(Idx())[v := NewBucket(cap, on)]
    {
      hide NewBucket;
      var made := new AppendBucket(cap, on);
      buckets := buckets[v := made];
    }

    /** Put an entity in the bucket of a value, and remember its place. */
    method PushInto(v: nat, e: nat)
      requires Separate() && v in buckets && Idx()[v].Shaped()
      modifies this`slots, buckets[v]
      ensures Separate() && Idx() == old(Idx())[v := Pushed(old(Idx())[v], e)]
      ensures slots == if e < room then old(slots)[e := |old(Idx())[v].data|] else old(slots)
    {
      hide Pushed;
      if e < room {
        slots := slots[e := |buckets[v].data|];
      }
      var at := buckets[v].Push(e);
    }

    /** Make the bucket of a value if there is none. */
    method EnsureBucket(v: nat, cap: nat)
      requires Separate()
      modifies this`buckets
      ensures Separate() && v in buckets && (v !in old(buckets) ==> fresh(buckets[v]))
      ensures buckets == old(buckets)[v := buckets[v]] && (v in old(buckets) ==> buckets[v] == old(buckets)[v])
      ensures Idx() == old(Idx())[v := BucketOf(old(Idx()), v, cap, on)]
    {
      hide NewBucket;
      if v !in buckets {
        MakeBucket(v, cap);
      }
    }

    /** Put an entity in the bucket of a value, which is made if there is none, and remember its place. */
    method PushSlot(e: nat, v: nat, cap: nat)
      requires Separate() && (v in buckets ==> Idx()[v].Shaped())
      modifies this`buckets, this`slots, buckets.Values
      ensures Separate() && v in buckets && (v !in old(buckets) ==> fresh(buckets[v]))
      ensures buckets == old(buckets)[v := buckets[v]] && (v in old(buckets) ==> buckets[v] == old(buckets)[v])
      ensures Idx() == old(Idx())[v := Pushed(BucketOf(old(Idx()), v, cap, on), e)]
      ensures slots == if e < room then old(slots)[e := |BucketOf(old(Idx()), v, cap, on).data|] else old(slots)
    {
      hide Pushed, BucketOf, Separate;
      BucketOfShaped(Idx(), v, cap, on);
      ghost var idx: Index, b := Idx(), BucketOf(Idx(), v, cap, on);
      EnsureBucket(v, cap);
      PushInto(v, e);
      assert idx[v := b][v := Pushed(b, e)] == idx[v := Pushed(b, e)];
    }

    /** An entity leaves the bucket of a value. Returns the length of the bucket and what is live in it. */
    method NoteStaleAt(v: nat, e: nat) returns (len: nat, live: nat)
      requires Separate() && v in buckets
      modifies buckets[v]
      ensures Idx() == old(Idx())[v := Staled(old(Idx())[v], if e in slots then Some(slots[e]) else None, on)]
      ensures len == |Idx()[v].data| && live == Idx()[v].live
    {
      len, live := buckets[v].NoteStale(if e in slots then Some(slots[e]) else None, on);
    }

    method CompactData(v: nat) returns (kept: seq<nat>)
      requires Separate() && v in buckets
      modifies buckets[v]
      ensures Ascending(kept) && forall e :: e in kept <==> e in old(Idx())[v].data && Holds(col, e, v)
      ensures Idx() == old(Idx())[v := Compacted(old(Idx())[v], kept)]
    {
      hide Compacted, Ascending;
      kept := buckets[v].Compact(col, v);
    }

    /** Compact the bucket of a value against the column. */
    method CompactBucket(v: nat)
      requires Indexed() && v in buckets
      modifies this`slots, buckets[v]
      ensures Indexed() && buckets == old(buckets) && Idx() == old(Idx())[v := Idx()[v]]
      ensures JustCompacted(Idx()[v], col, v)
    {
      hide IndexSound, Ascending, Separate, Compacted, JustCompacted;
      ghost var idx := Idx();
      CoversHolders(idx, slots, col, on, v);
      var kept := CompactData(v);
      CompactKeeps(idx, slots, col, on, v, kept, room, Idx());
      slots := Placed(slots, kept, room);
    }

    /** Compact a bucket when half of it is stale. */
    method MaybeCompact(v: nat, len: nat, live: nat)
      requires Indexed() && v in buckets && len == |Idx()[v].data| && live == Idx()[v].live
      requires OthersSmall(Idx(), v + 1)
      modifies this`slots, buckets[v]
      ensures Indexed() && AllSmall(Idx()) && buckets == old(buckets)
      ensures if COMPACT_MIN_LEN <= len && 2 * live <= len
        then JustCompacted(Idx()[v], col, v) && Idx() == old(Idx())[v := Idx()[v]]
        else Idx() == old(Idx()) && slots == old(slots)
    {
      hide IndexSound, Answers;
      if len >= COMPACT_MIN_LEN && 2 * (len - live) >= len {
        CompactBucket(v);
      }
    }

    // ---- Writing ----

    /** Count a cell in or out. */
    method Note(stripe: nat, d: int)
      requires stripe < |stripes|
      modifies this`stripes
      ensures |stripes| == |old(stripes)| && Sum(stripes) == Sum(old(stripes)) + d
    {
      SumUpdate(stripes, stripe, d);
      stripes := stripes[stripe := stripes[stripe] + d];
    }

    /** Write a cell of the column, and count it. */
    method StoreCell(e: nat, x: nat, stripe: nat)
      requires Counted() && e < |col| && stripe < 8
      modifies this`col, this`stripes
      ensures Counted() && col == old(col)[e := x]
    {
      FilledSet(col, e, x);
      Note(stripe, (if x != 0 then 1 else 0) - (if col[e] != 0 then 1 else 0));
      col := col[e := x];
    }

    /** Note that the value of a cell is about to leave. Returns the length of its bucket and what stays live in it. */
    method Depart(e: nat) returns (len: nat, live: nat)
      requires Separate() && e < |col| && (col[e] != 0 ==> col[e] - 1 in buckets)
      modifies buckets.Values
      ensures Idx() == AfterLeave(old(Idx()), slots, col, on, e)
      ensures col[e] != 0 ==> len == |Idx()[col[e] - 1].data| && live == Idx()[col[e] - 1].live
    {
      hide Staled;
      len, live := 0, 0;
      if col[e] != 0 {
        len, live := NoteStaleAt(col[e] - 1, e);
      }
    }

    /** The buckets are those there were, and perhaps one made for value `x - 1`. */
    twostate predicate OneMore(x: nat)
      reads this`buckets
    {
      buckets == old(buckets)
        || (x > 0 && x - 1 in buckets && fresh(buckets[x - 1]) && buckets == old(buckets)[x - 1 := buckets[x - 1]])
    }

    /** Write a cell, and add its entry. */
    method Arrive(e: nat, x: nat, stripe: nat)
      requires Separate() && Counted() && e < |col| && stripe < 8
      requires x != 0 && x - 1 in buckets ==> Idx()[x - 1].Shaped()
      modifies this`col, this`stripes, this`buckets, this`slots, buckets.Values
      ensures Separate() && Counted() && col == old(col)[e := x] && OneMore(x)
      ensures Idx() == if x == 0 then old(Idx())
        else old(Idx())[x - 1 := Pushed(BucketOf(old(Idx()), x - 1, INITIAL_CAP, on), e)]
      ensures slots == MovedSlots(old(Idx()), old(slots), on, e, x, room)
    {
      hide Pushed, Counted, BucketOf, Separate;
      StoreCell(e, x, stripe);
      if x == 0 {
        slots := slots - {e};
      } else {
        PushSlot(e, x - 1, INITIAL_CAP);
      }
    }

    /**
     Stale the old entry of a cell, write the cell, add the new entry. Returns the length and the live count of the old
     bucket.
     */
    method SwapEntry(e: nat, x: nat, stripe: nat) returns (len: nat, live: nat)
      requires Separate() && Counted() && e < |col| && x != col[e] && stripe < 8
      requires (col[e] != 0 ==> col[e] - 1 in buckets) && (x != 0 && x - 1 in buckets ==> Idx()[x - 1].Shaped())
      modifies this`col, this`stripes, this`buckets, this`slots, buckets.Values
      ensures Separate() && Counted() && col == old(col)[e := x] && OneMore(x)
      ensures Idx() == Moved(old(Idx()), old(slots), old(col), on, e, x)
      ensures slots == MovedSlots(old(Idx()), old(slots), on, e, x, room)
      ensures old(col)[e] != 0 ==> var b := AfterLeave(old(Idx()), old(slots), old(col), on, e)[old(col)[e] - 1];
        len == |b.data| && live == b.live
    {
      hide Staled, Pushed, Counted, NewBucket, Separate;
      ghost var idx := Idx();
      len, live := Depart(e);
      assert x != 0 ==> BucketOf(Idx(), x - 1, INITIAL_CAP, on) == BucketOf(idx, x - 1, INITIAL_CAP, on);
      Arrive(e, x, stripe);
    }

    /** Change a cell of an indexed column, and compact the old bucket when half of it is stale. */
    method MoveCell(e: nat, x: nat, stripe: nat)
      requires Valid() && built && e < |col| && x != col[e] && stripe < 8
      modifies this`col, this`stripes, this`buckets, this`slots, buckets.Values
      ensures Valid() && col == old(col)[e := x] && OneMore(x)
    {
      hide IndexSound, Small, Moved, MovedSlots, Counted, AllSmall, OthersSmall, Separate, AfterLeave;
      ghost var idx := Idx();
      MoveKeeps(idx, slots, col, on, e, x, room);
      if x != 0 && x - 1 in idx {
        CoversHolders(idx, slots, col, on, x - 1);
      }
      var o := col[e];
      var len, live := SwapEntry(e, x, stripe);
      SettleOld(o, len, live);
    }

    /** Compact the bucket a cell content `o` left, if there was a value. */
    method SettleOld(o: nat, len: nat, live: nat)
      requires Indexed() && OthersSmall(Idx(), o)
      requires o != 0 ==> o - 1 in buckets && len == |Idx()[o - 1].data| && live == Idx()[o - 1].live
      modifies this`slots, buckets.Values
      ensures Indexed() && AllSmall(Idx()) && buckets == old(buckets)
    {
      hide IndexSound, Small, AllSmall, OthersSmall, Separate;
      if o != 0 {
        MaybeCompact(o - 1, len, live);
      } else {
        NoneLeft(Idx());
      }
    }

    /** Make the column reach a cell. */
    method EnsureCount(e: nat)
      requires Valid()
      modifies this`col
      ensures Valid() && col == Grown(old(col), e)
    {
      hide IndexSound, AllSmall, Sum;
      FilledGrown(col, e);
      if built {
        GrowKeeps(Idx(), slots, col, on, Grown(col, e));
      }
      col := Grown(col, e);
    }

    /**
     Give a cell a value. Refused only when the value does not fit the column or the disk has no room for the cell.
     */
    method Set(e: nat, value: nat, stripe: nat, committed: bool) returns (ok: bool)
      requires Valid() && stripe < 8
      modifies this`col, this`stripes, this`buckets, this`slots, buckets.Values
      ensures Valid() && ok == (value <= maxValue && committed) && OneMore(value + 1)
      ensures col == if ok then Grown(old(col), e)[e := value + 1] else old(col)
    {
      hide IndexSound, AllSmall, Sum, Counted;
      if value > maxValue || !committed {
        return false;
      }
      ok := true;
      EnsureCount(e);
      if col[e] != value + 1 {
        if built {
          MoveCell(e, value + 1, stripe);
        } else {
          StoreCell(e, value + 1, stripe);
        }
      }
    }

    /** Take the value out of a cell. */
    method Remove(e: nat, stripe: nat)
      requires Valid() && stripe < 8
      modifies this`col, this`stripes, this`buckets, this`slots, buckets.Values
      ensures Valid() && buckets == old(buckets)
      ensures col == if e < |old(col)| then old(col)[e := 0] else old(col)
    {
      hide IndexSound, AllSmall, Sum, Counted;
      if e < |col| && col[e] != 0 {
        if built {
          MoveCell(e, 0, stripe);
        } else {
          StoreCell(e, 0, stripe);
        }
      }
    }

    /** Put a cell back to what it held, a value or none, if there is disk space for the cell. */
    method Restore(e: nat, x: nat, stripe: nat, committed: bool)
      requires Valid() && stripe < 8
      modifies this`col, this`stripes, this`buckets, this`slots, buckets.Values
      ensures Valid() && OneMore(x) && col == if committed then Grown(old(col), e)[e := x] else old(col)
    {
      hide IndexSound, AllSmall, Sum, Counted;
      if !committed {
        return;
      }
      EnsureCount(e);
      if col[e] != x {
        if built {
          MoveCell(e, x, stripe);
        } else {
          StoreCell(e, x, stripe);
        }
      }
    }

    // ---- Building ----

    /** How many cells hold each value. */
    method CountValues() returns (counts: map<nat, nat>)
      ensures forall e | 0 <= e < |col| && col[e] != 0 :: col[e] - 1 in counts
      ensures forall v | v in counts :: counts[v] == |Holders(col, v)|
    {
      counts := map[];
      assert col[..0] == [] && col[..|col|] == col;
      for e := 0 to |col|
        invariant forall i | 0 <= i < e && col[i] != 0 :: col[i] - 1 in counts
        invariant forall v | v in counts :: counts[v] == |Holders(col[..e], v)|
      {
        CountsOneMore(col, e, counts);
        if col[e] != 0 {
          counts := counts[col[e] - 1 := 1 + if col[e] - 1 in counts then counts[col[e] - 1] else 0];
        }
      }
    }

    /** Build the index from the column, the first time it is asked for. A new index has no stale entry. */
    method EnsureBuilt()
      requires Valid()
      modifies this`built, this`buckets, this`slots, this`room, this`on
      ensures Valid() && built
      ensures old(built) ==> buckets == old(buckets) && unchanged(this)
      ensures !old(built) ==> forall v | v in buckets :: fresh(buckets[v]) && !Idx()[v].removed
      ensures if !old(built) && declared then on && room == maxEntities else on == old(on) && room == old(room)
    {
      hide IndexSound, AllSmall, Counted;
      if built {
        return;
      }
      if declared {
        room, on := maxEntities, true;
      }
      var counts := CountValues();
      AddCells(counts);
      AllBuilt(Idx(), slots, col, on, room);
      built := true;
    }

    /** Put every cell of the column in the bucket of its value, in eid order. */
    method AddCells(counts: map<nat, nat>)
      requires buckets == map[] && slots == map[] && forall e | 0 <= e < |col| && col[e] != 0 :: col[e] - 1 in counts
      modifies this`buckets, this`slots
      ensures Separate() && (forall v | v in buckets :: fresh(buckets[v]))
      ensures BuiltTo(Idx(), slots, col, on, |col|, room)
    {
      hide BuiltTo;
      NothingBuilt(col, on, room);
      assert Idx() == map[];
      for e := 0 to |col|
        invariant Separate() && (forall v | v in buckets :: fresh(buckets[v]))
        invariant BuiltTo(Idx(), slots, col, on, e, room)
      {
        if col[e] == 0 {
          BuildSkips(Idx(), slots, col, on, e, room);
        } else {
          AddCell(e, counts[col[e] - 1]);
        }
      }
    }

    method AddCell(e: nat, cap: nat)
      requires Separate() && BuiltTo(Idx(), slots, col, on, e, room) && e < |col| && col[e] != 0
      modifies this`buckets, this`slots, buckets.Values
      ensures Separate() && BuiltTo(Idx(), slots, col, on, e + 1, room) && OneMore(col[e])
    {
      hide BuiltTo, Pushed, NewBucket;
      ghost var v := col[e] - 1;
      ghost var b := BucketOf(Idx(), v, cap, on);
      BuildAdds(Idx(), slots, col, on, e, room, cap, b);
      PushSlot(e, col[e] - 1, cap);
    }

    // ---- Reading ----

    /** Walk the whole column. */
    method Scan(v: nat) returns (r: seq<nat>)
      ensures Ascending(r) && Answers(r, col, v)
    {
      r := [];
      for e := 0 to |col|
        invariant Ascending(r) && forall x: nat :: x in r <==> x < e && Holds(col, x, v)
      {
        if col[e] == v + 1 {
          assert forall j | 0 <= j < |r| :: r[j] in r;
          r := r + [e];
        }
      }
    }

    /** Compact a bucket that is read again and again without a write in between, if its lock is free. */
    method CompactIfReread(v: nat, free: bool) returns (done: bool)
      requires Valid() && built
      modifies this`slots, buckets.Values
      ensures Valid() && buckets == old(buckets)
      ensures done <==> v in buckets && free && ReadOften(HimoIndex.Reread(old(Idx())[v]))
      ensures done ==>
        && JustCompacted(Idx()[v], col, v)
        && Idx() == old(Idx())[v := Idx()[v]]
      ensures !done ==>
        && unchanged(`slots)
        && Idx() == if v in buckets then old(Idx())[v := HimoIndex.Reread(old(Idx())[v])] else old(Idx())
    {
      hide IndexSound, AllSmall, Counted, Small, Separate, Ascending, Answers, ReadOften, HimoIndex.Reread;
      if v !in buckets {
        return false;
      }
      var often := Reread(v);
      if !often || !free {
        return false;
      }
      ghost var idx := Idx();
      CompactBucket(v);
      StillSmall(idx, Idx(), v);
      return true;
    }

    /** Note the read, and tell whether the bucket has been read again often enough. */
    method Reread(v: nat) returns (often: bool)
      requires Valid() && built && v in buckets
      modifies buckets[v]
      ensures Valid() && v in Idx() && often == ReadOften(Idx()[v])
      ensures Idx() == old(Idx())[v := HimoIndex.Reread(old(Idx())[v])]
    {
      hide IndexSound, AllSmall, Counted;
      ghost var idx := Idx();
      var n := buckets[v].MarkVerified();
      var len := |buckets[v].data|;
      often := len >= COMPACT_MIN_LEN && n >= if len >= REREAD_EARLY_LEN then 1 else 2;
      RereadKeeps(idx, Idx(), slots, col, on, v);
    }

    /**
     What the bucket of a value gives: its entries, whether the column must be asked, whether stale ones are there.
     */
    method ReadBucket(v: nat) returns (raw: seq<nat>, verify: bool, churned: bool)
      requires Valid() && built
      ensures !verify ==> Answers(raw, col, v)
      ensures verify ==> forall e | Holds(col, e, v) :: e in raw
      ensures churned <==> v in buckets && Idx()[v].removed
      ensures verify ==> churned
    {
      hide IndexSound, AllSmall, Counted;
      NoBucket(Idx(), slots, col, on, v);
      if v !in buckets {
        return [], false, false;
      }
      ghost var b := Idx()[v];
      BucketGives(Idx(), slots, col, on, v);
      raw, verify, churned := buckets[v].Read(on);
    }

    /** Read the bucket of a value; if stale entries are there and it is read again and again, compact it first. */
    method ReadOrCompact(v: nat, free: bool) returns (raw: seq<nat>, verify: bool)
      requires Valid() && built
      modifies this`slots, buckets.Values
      ensures Valid() && buckets == old(buckets)
      ensures if verify then forall e | Holds(col, e, v) :: e in raw else Answers(raw, col, v)
      ensures verify ==> v in buckets && old(Idx())[v].removed && !(free && ReadOften(HimoIndex.Reread(old(Idx())[v])))
    {
      hide Valid, Answers, ReadOften, HimoIndex.Reread;
      var churned;
      raw, verify, churned := ReadBucket(v);
      if churned {
        var done := CompactIfReread(v, free);
        if done {
          raw, verify, churned := ReadBucket(v);
        }
      }
    }

    /** The entities that hold a value now, each once. */
    method Pull(v: nat, free: bool) returns (r: seq<nat>)
      requires Valid()
      modifies this`built, this`buckets, this`slots, this`room, this`on, buckets.Values
      ensures Valid() && built && Answers(r, col, v)
    {
      hide Valid, Answers;
      EnsureBuilt();
      var raw, verify := ReadOrCompact(v, free);
      if !verify {
        return raw;
      }
      var live := LiveOf(col, v, raw);
      r := SortedOnce(live);
      OnceAnswers(r, raw, live, col, v);
    }

    /** Add what one bucket of a range gives. */
    method PullPart(v: nat, free: bool, out: seq<nat>) returns (r: seq<nat>)
      requires Valid() && built && v in buckets
      modifies this`slots, buckets.Values
      ensures Valid() && buckets == old(buckets)
      ensures |out| <= |r| && r[..|out|] == out && Answers(r[|out|..], col, v)
    {
      hide IndexSound, AllSmall, Counted, Answers;
      BucketGives(Idx(), slots, col, on, v);
      var eids := buckets[v].data;
      if buckets[v].live == 0 || eids == [] {
        NoneLive(Idx(), slots, col, on, v);
        assert out[|out|..] == [];
        return out;
      }
      if buckets[v].removed {
        r := PullStale(v, free, out);
      } else {
        r := out + eids;
        assert r[|out|..] == eids;
      }
    }

    /** Add what a bucket with stale entries gives: compacted, by its marks, or against the column. */
    method PullStale(v: nat, free: bool, out: seq<nat>) returns (r: seq<nat>)
      requires Valid() && built && v in buckets
      modifies this`slots, buckets.Values
      ensures Valid() && buckets == old(buckets)
      ensures |out| <= |r| && r[..|out|] == out && Answers(r[|out|..], col, v)
    {
      hide Valid, Answers, Unmarked;
      var eids, marks, exact := BucketParts(v);
      var done := CompactIfReread(v, free);
      if done {
        var part := ReadChecked(v);
        r := out + part;
        assert r[|out|..] == part;
      } else if on && marks != [] && exact {
        r := CopyUnmarked(eids, marks, out);
        assert r[|out|..] == Unmarked(eids, marks);
      } else {
        ghost var mid;
        r, mid := PushLiveOnce(col, v, eids, out);
        AnswersOf(r[|out|..], eids, col, v);
      }
    }

    method BucketParts(v: nat) returns (eids: seq<nat>, marks: seq<bool>, exact: bool)
      requires Valid() && built && v in buckets
      ensures forall e | Holds(col, e, v) :: e in eids
      ensures on && marks != [] && exact ==> |eids| <= |marks| && Answers(Unmarked(eids, marks), col, v)
    {
      hide IndexSound, AllSmall, Counted, Answers, Unmarked;
      BucketGives(Idx(), slots, col, on, v);
      eids, marks, exact := buckets[v].data, buckets[v].stale, buckets[v].exact;
    }

    /** Read the bucket of a value, checked against the column if it must be. */
    method ReadChecked(v: nat) returns (r: seq<nat>)
      requires Valid() && built
      ensures Answers(r, col, v)
    {
      hide Valid, Answers;
      var raw, verify, _ := ReadBucket(v);
      if !verify {
        return raw;
      }
      var live := LiveOf(col, v, raw);
      r := SortedOnce(live);
      OnceAnswers(r, raw, live, col, v);
    }

    /** Add up the buckets of some values. */
    method PullValues(values: seq<nat>, free: set<nat>) returns (r: seq<nat>)
      requires Valid() && built && Ascending(values) && forall v | v in values :: v in buckets
      modifies this`slots, buckets.Values
      ensures Valid() && buckets == old(buckets) && Pulled(r, col, values, |values|)
    {
      hide Valid, Answers, Ascending, Pulled;
      r := [];
      ghost var all := buckets;
      NothingPulled(col, values);
      for k := 0 to |values|
        invariant Valid() && buckets == all && Pulled(r, col, values, k)
      {
        assert values[k] in values;
        ghost var before := r;
        r := PullPart(values[k], values[k] in free, r);
        PulledMore(before, r, col, values, k);
      }
    }

    /** The entities whose value lies in a range, each once, in no particular order. */
    method PullRangeUnordered(lo: nat, hi: nat, free: set<nat>) returns (r: seq<nat>)
      requires Valid()
      modifies this`built, this`buckets, this`slots, this`room, this`on, buckets.Values
      ensures Valid() && (lo <= hi ==> built)
      ensures NoRepeat(r) && forall e: nat :: e in r <==> e < |col| && col[e] != 0 && lo <= col[e] - 1 <= hi
    {
      hide IndexSound, AllSmall, Counted, Ascending, Pulled;
      if lo > hi {
        return [];
      }
      EnsureBuilt();
      var values := Sorted(set v | v in buckets && lo <= v <= hi);
      r := PullValues(values, free);
      AllPulled(r, col, values, Idx(), slots, on, lo, hi);
    }

    /** How many entities hold a value, from the count its bucket keeps. */
    method SliceLen(v: nat) returns (n: nat)
      requires Valid()
      modifies this`built, this`buckets, this`slots, this`room, this`on
      ensures Valid() && built && n == |Holders(col, v)|
    {
      hide IndexSound, AllSmall, Counted;
      EnsureBuilt();
      LiveCount(Idx(), slots, col, on, v);
      n := if v in buckets then buckets[v].live else 0;
    }

    /** How many cells have a value; counted once for a column read from a file, then kept. */
    method PresentCount() returns (n: int)
      requires Valid()
      modifies this`known, this`base
      ensures Valid() && known && n == |Filled(col)|
    {
      hide IndexSound, AllSmall;
      if !known {
        var count := 0;
        for e := 0 to |col|
          invariant count == |Filled(col[..e])|
        {
          FilledNext(col, e);
          if col[e] != 0 {
            count := count + 1;
          }
        }
        assert col[..|col|] == col;
        base := count - Sum(stripes);
        known := true;
      }
      n := base + Sum(stripes);
    }

    /** Ask for stale marks from the next build on, or stop using them now. */
    method DeclareMarks(want: bool) returns (live: bool)
      requires Valid()
      modifies this`declared, this`on
      ensures Valid() && declared == want && live == on && on == (old(on) && want)
    {
      hide IndexSound, AllSmall, Counted;
      if built {
        MarksOff(Idx(), slots, col, on);
      }
      declared := want;
      if !want {
        on := false;
      }
      live := on;
    }
  }

  lemma MarksOff(idx: Index, slots: map<nat, nat>, col: Column, on: bool)
    requires IndexSound(idx, slots, col, on)
    ensures IndexSound(idx, slots, col, false)
  {
    forall v | v in idx ensures BucketSound(idx[v], v, col, false) {
      assert BucketSound(idx[v], v, col, on);
    }
  }

  lemma LiveCount(idx: Index, slots: map<nat, nat>, col: Column, on: bool, v: nat)
    requires IndexSound(idx, slots, col, on)
    ensures |Holders(col, v)| == if v in idx then idx[v].live else 0
  {
    if v in idx {
      assert BucketSound(idx[v], v, col, on);
    } else {
      assert Holders(col, v) == {};
    }
  }

  lemma FilledNext(col: Column, e: nat)
    requires e < |col|
    ensures |Filled(col[..e + 1])| == |Filled(col[..e])| + if col[e] != 0 then 1 else 0
  {
    assert Filled(col[..e + 1]) == Filled(col[..e]) + if col[e] != 0 then {e} else {};
    assert e !in Filled(col[..e]);
  }

  /** How the counts of the first `e` cells go on. */
  lemma CountsOneMore(col: Column, e: nat, counts: map<nat, nat>)
    requires e < |col| && forall v | v in counts :: counts[v] == |Holders(col[..e], v)|
    requires forall i | 0 <= i < e && col[i] != 0 :: col[i] - 1 in counts
    ensures forall v | v in counts && v + 1 != col[e] :: counts[v] == |Holders(col[..e + 1], v)|
    ensures col[e] != 0 ==> var v := col[e] - 1;
      |Holders(col[..e + 1], v)| == 1 + if v in counts then counts[v] else 0
  {
    forall v: nat
      ensures |Holders(col[..e + 1], v)| == |Holders(col[..e], v)| + if col[e] == v + 1 then 1 else 0
    {
      HoldersNext(col, e, v);
    }
    if col[e] != 0 && col[e] - 1 !in counts {
      assert Holders(col[..e], col[e] - 1) == {};
    }
    hide Holders;
  }

  lemma HoldersNext(col: Column, e: nat, v: nat)
    requires e < |col|
    ensures |Holders(col[..e + 1], v)| == |Holders(col[..e], v)| + if col[e] == v + 1 then 1 else 0
  {
    if col[e] == v + 1 {
      assert Holders(col[..e + 1], v) == Holders(col[..e], v) + {e};
    } else {
      assert Holders(col[..e + 1], v) == Holders(col[..e], v);
    }
  }

  lemma StillSmall(idx: Index, idx': Index, v: nat)
    requires AllSmall(idx) && v in idx && v in idx' && Small(idx'[v]) && idx' == idx[v := idx'[v]]
    ensures AllSmall(idx')
  {
  }

  lemma RereadKeeps(idx: Index, idx': Index, slots: map<nat, nat>, col: Column, on: bool, v: nat)
    requires IndexSound(idx, slots, col, on) && AllSmall(idx) && v in idx && v in idx'
    requires idx' == idx[v := idx[v].(verified := idx'[v].verified, rereads := idx'[v].rereads)]
    ensures IndexSound(idx', slots, col, on) && AllSmall(idx')
  {
    var b, c := idx[v], idx'[v];
    assert BucketSound(b, v, col, on);
    assert forall i :: c.Unmark(i) <==> b.Unmark(i);
    assert BucketSound(c, v, col, on);
    forall e | e in slots ensures SlotOk(e, slots[e], idx', col) {
      assert SlotOk(e, slots[e], idx, col);
    }
  }

  lemma NoBucket(idx: Index, slots: map<nat, nat>, col: Column, on: bool, v: nat)
    requires IndexSound(idx, slots, col, on)
    ensures v !in idx ==> Answers([], col, v)
  {
  }

  lemma BucketGives(idx: Index, slots: map<nat, nat>, col: Column, on: bool, v: nat)
    requires IndexSound(idx, slots, col, on) && v in idx
    ensures idx[v].Shaped() && forall e | Holds(col, e, v) :: e in idx[v].data
    ensures !idx[v].removed ==> Answers(idx[v].data, col, v)
    ensures on && idx[v].stale != [] && idx[v].exact ==> Answers(Unmarked(idx[v].data, idx[v].stale), col, v)
  {
    var b := idx[v];
    assert BucketSound(b, v, col, on);
    if on && b.stale != [] && b.exact {
      MarkedAnswers(b, v, col);
    }
  }

  lemma OnceAnswers(r: seq<nat>, raw: seq<nat>, live: seq<nat>, col: Column, v: nat)
    requires Ascending(r) && (forall e :: e in r <==> e in live)
    requires forall e :: e in live <==> e in raw && Holds(col, e, v)
    requires forall e | Holds(col, e, v) :: e in raw
    ensures Answers(r, col, v)
  {
  }

  lemma NoneLive(idx: Index, slots: map<nat, nat>, col: Column, on: bool, v: nat)
    requires IndexSound(idx, slots, col, on) && v in idx && (idx[v].live == 0 || idx[v].data == [])
    ensures Answers([], col, v)
  {
    assert BucketSound(idx[v], v, col, on);
    if idx[v].live == 0 {
      assert forall e | Holds(col, e, v) :: e in Holders(col, v);
    }
  }

  lemma AnswersOf(r: seq<nat>, eids: seq<nat>, col: Column, v: nat)
    requires NoRepeat(r) && (forall e :: e in r <==> e in eids && Holds(col, e, v))
    requires forall e | Holds(col, e, v) :: e in eids
    ensures Answers(r, col, v)
  {
  }

  /** The entities of the first `k` values of a range. */
  ghost predicate Pulled(r: seq<nat>, col: Column, values: seq<nat>, k: nat) {
    k <= |values| && NoRepeat(r) && forall e: nat :: e in r <==> e < |col| && col[e] != 0 && col[e] - 1 in values[..k]
  }

  lemma NothingPulled(col: Column, values: seq<nat>)
    ensures Pulled([], col, values, 0)
  {
  }

  lemma PulledMore(r: seq<nat>, r': seq<nat>, col: Column, values: seq<nat>, k: nat)
    requires Ascending(values) && k < |values| && Pulled(r, col, values, k)
    requires |r| <= |r'| && r'[..|r|] == r && Answers(r'[|r|..], col, values[k])
    ensures Pulled(r', col, values, k + 1)
  {
    var part := r'[|r|..];
    assert r' == r + part && values[..k + 1] == values[..k] + [values[k]];
    assert values[k] !in values[..k];
    forall i, j | 0 <= i < |r| && 0 <= j < |part| ensures r[i] != part[j] {
      assert r[i] in r && part[j] in part && Holds(col, part[j], values[k]);
    }
    forall e: nat ensures e in r' <==> e < |col| && col[e] != 0 && col[e] - 1 in values[..k + 1] {
      assert e in part <==> Holds(col, e, values[k]);
    }
  }

  lemma AllPulled(r: seq<nat>, col: Column, values: seq<nat>, idx: Index, slots: map<nat, nat>, on: bool, lo: nat,
      hi: nat)
    requires IndexSound(idx, slots, col, on) && Pulled(r, col, values, |values|)
    requires forall v :: v in values <==> v in idx && lo <= v <= hi
    ensures NoRepeat(r) && forall e: nat :: e in r <==> e < |col| && col[e] != 0 && lo <= col[e] - 1 <= hi
  {
    assert values[..|values|] == values;
    forall e: nat ensures e in r <==> e < |col| && col[e] != 0 && lo <= col[e] - 1 <= hi {
      if e < |col| && col[e] != 0 {
        assert col[e] - 1 in idx;
      }
    }
  }

  lemma AllBuilt(idx: Index, slots: map<nat, nat>, col: Column, on: bool, room: nat)
    requires BuiltTo(idx, slots, col, on, |col|, room)
    ensures IndexSound(idx, slots, col, on) && AllSmall(idx) && (forall s | s in slots :: s < room)
    ensures forall v | v in idx :: !idx[v].removed
  {
    assert col[..|col|] == col;
  }
}
