/**
 What the inverted index of a column holds (crates/enchudb-engine/src/himo_store.rs, append_bucket.rs and the
 array part of lockfree_cylinder.rs): a bucket of eids for each value, with stale entries left behind when a
 cell changes, and what every step keeps true of them.
 */
module HimoIndex {
  import opened Wrappers
  import opened Ordering
  import opened BucketReads

  const INITIAL_CAP: nat := 4
  const COMPACT_MIN_LEN: nat := 64
  const REREAD_EARLY_LEN: nat := 1024

  /**
   A bucket as a value. `stale` has a bit for each place of the backing when the bucket carries marks;
   `exact` says that every stale entry is marked.
   */
  datatype Bucket = Bucket(
    data: seq<nat>, cap: nat, live: nat, removed: bool, marked: bool, stale: seq<bool>, exact: bool,
    verified: Option<(nat, nat)>, rereads: nat)
  {
    ghost predicate Shaped() {
      |data| <= cap && |stale| == (if marked then cap else 0) && forall i | |data| <= i < |stale| :: !stale[i]
    }

    /** Place `i` has an entry without a mark. */
    ghost predicate Unmark(i: int) {
      0 <= i < |data| && (i < |stale| ==> !stale[i])
    }
  }

  type Index = map<nat, Bucket>

  /** Entries without a mark are exactly the holders, each once. */
  ghost predicate MarksExact(b: Bucket, v: nat, col: Column) {
    && (forall i | b.Unmark(i) :: Holds(col, b.data[i], v))
    && (forall i, j | b.Unmark(i) && b.Unmark(j) && i != j :: b.data[i] != b.data[j])
    && (forall e | Holds(col, e, v) :: exists i :: b.Unmark(i) && b.data[i] == e)
  }

  ghost predicate Small(b: Bucket) {
    |b.data| < b.live + COMPACT_MIN_LEN || 2 * (|b.data| - b.live) < |b.data|
  }

  /** What a bucket of value `v` says about the column, all but its size. */
  ghost predicate BucketSound(b: Bucket, v: nat, col: Column, on: bool) {
    && b.Shaped() && b.live == |Holders(col, v)|
    && (forall e | Holds(col, e, v) :: e in b.data)
    && (!b.removed ==> NoRepeat(b.data) && (forall e | e in b.data :: Holds(col, e, v)) && true !in b.stale)
    && (on && b.stale != [] && b.exact ==> MarksExact(b, v, col))
  }

  /** The place remembered for an entity is that of its entry in the bucket of its value, and not marked. */
  ghost predicate SlotOk(e: nat, p: nat, idx: Index, col: Column) {
    e < |col| && col[e] != 0 && col[e] - 1 in idx && idx[col[e] - 1].Unmark(p) && idx[col[e] - 1].data[p] == e
  }

  ghost predicate IndexSound(idx: Index, slots: map<nat, nat>, col: Column, on: bool) {
    && (forall v | v in idx :: BucketSound(idx[v], v, col, on))
    && (forall e | 0 <= e < |col| && col[e] != 0 :: col[e] - 1 in idx)
    && (forall e | e in slots :: SlotOk(e, slots[e], idx, col))
  }

  ghost predicate AllSmall(idx: Index) {
    forall v | v in idx :: Small(idx[v])
  }

  /** Every bucket but that of the cell content `x`. */
  ghost predicate OthersSmall(idx: Index, x: nat) {
    forall v | v in idx && v + 1 != x :: Small(idx[v])
  }

  lemma NoneLeft(idx: Index)
    requires OthersSmall(idx, 0)
    ensures AllSmall(idx)
  {
  }

  // ---- Steps on one bucket ----

  function NewBucket(cap: nat, marked: bool): Bucket {
    Bucket([], cap, 0, false, marked, seq(if marked then cap else 0, _ => false), true, None, 0)
  }

  /** `push_in` and `live_inc`: in place while there is room, otherwise in a backing twice as large. */
  function Pushed(b: Bucket, e: nat): Bucket {
    var cap := if |b.data| < b.cap then b.cap else if 2 * b.cap > INITIAL_CAP then 2 * b.cap else INITIAL_CAP;
    var stale := if b.marked && cap > |b.stale| then b.stale + seq(cap - |b.stale|, _ => false) else b.stale;
    b.(data := b.data + [e], cap := cap, live := b.live + 1, stale := stale, exact := b.exact || b.stale == [])
  }

  /** `mark_stale`, for a place the writer remembers or does not. */
  function Marked(b: Bucket, at: Option<nat>): Bucket {
    if b.stale == [] then b
    else if at.Some? && at.value < |b.data| && at.value < |b.stale| then b.(stale := b.stale[at.value := true])
    else b.(exact := false)
  }

  /** An entry goes stale: marked if marks are in use, then the flag, then the count. */
  function Staled(b: Bucket, at: Option<nat>, on: bool): Bucket {
    var m := if on then Marked(b, at) else b;
    m.(removed := true, live := if m.live > 0 then m.live - 1 else 0)
  }

  function PowerAbove(n: nat): (p: nat)
    ensures n <= p
  {
    if n <= 1 then 1 else 2 * PowerAbove((n + 1) / 2)
  }

  /** What compaction keeps, in a new backing without stale entries. */
  function Compacted(b: Bucket, kept: seq<nat>): Bucket {
    var p := PowerAbove(|kept|);
    var cap := if p > INITIAL_CAP then p else INITIAL_CAP;
    Bucket(kept, cap, |kept|, false, b.marked, seq(if b.marked then cap else 0, _ => false), true, None, 0)
  }

  /** The places of the kept entries, for those the table has room for. */
  function Placed(slots: map<nat, nat>, kept: seq<nat>, room: nat): map<nat, nat>
    requires NoRepeat(kept)
  {
    slots + map i | 0 <= i < |kept| && kept[i] < room :: kept[i] := i
  }

  /** `mark_verified`: a read that had to verify notes the length and the count it saw. */
  function Reread(b: Bucket): Bucket {
    b.(verified := Some((|b.data|, b.live)), rereads := if b.verified == Some((|b.data|, b.live)) then b.rereads + 1
      else 0)
  }

  /** A bucket worth compacting is read again: the second time without a write for a long one, the third for others. */
  ghost predicate ReadOften(b: Bucket) {
    COMPACT_MIN_LEN <= |b.data| && (b.rereads >= 2 || (b.rereads == 1 && REREAD_EARLY_LEN <= |b.data|))
  }

  // ---- Reads in a row ----

  datatype Act = Enters(e: nat) | Leaves(at: Option<nat>, on: bool) | Rereads | Compacts(kept: seq<nat>)

  ghost function Acted(b: Bucket, a: Act): Bucket {
    match a
    case Enters(e) => Pushed(b, e)
    case Leaves(at, on) => Staled(b, at, on)
    case Rereads => Reread(b)
    case Compacts(kept) => Compacted(b, kept)
  }

  ghost function After(b: Bucket, acts: seq<Act>): Bucket {
    if acts == [] then b else Acted(After(b, acts[..|acts| - 1]), acts[|acts| - 1])
  }

  /** An entry leaves only a bucket that counts one. */
  ghost predicate Counts(b: Bucket, acts: seq<Act>) {
    forall i | 0 <= i < |acts| && acts[i].Leaves? :: After(b, acts[..i]).live > 0
  }

  /** How many of the last acts are reads. */
  ghost function ReadsInARow(acts: seq<Act>): nat {
    if acts == [] || !acts[|acts| - 1].Rereads? then 0 else ReadsInARow(acts[..|acts| - 1]) + 1
  }

  /** The length and the count have moved since the last read exactly if there was a write. */
  ghost predicate Noted(b: Bucket, row: nat) {
    if b.verified.None? then row == 0
    else if row > 0 then b.verified == Some((|b.data|, b.live)) && b.rereads == row - 1
    else b.verified.value.0 < |b.data| || (b.verified.value.0 == |b.data| && b.live < b.verified.value.1)
  }

  lemma NotedStep(b: Bucket, a: Act, row: nat)
    requires Noted(b, row) && (a.Leaves? ==> b.live > 0)
    ensures Noted(Acted(b, a), if a.Rereads? then row + 1 else 0) && (a.Rereads? ==> Acted(b, a).rereads == row)
  {
  }

  /**
   Over every sequence of pushes, departures, compactions and verifying reads of a new bucket: what the last read
   returned
   is the number of reads right before it, with no write among them.
   */
  lemma {:induction false} RereadsAre(cap: nat, marked: bool, acts: seq<Act>)
    requires Counts(NewBucket(cap, marked), acts)
    ensures Noted(After(NewBucket(cap, marked), acts), ReadsInARow(acts))
    ensures acts != [] && acts[|acts| - 1].Rereads? ==>
      After(NewBucket(cap, marked), acts).rereads == ReadsInARow(acts[..|acts| - 1])
  {
    if acts != [] {
      var n := |acts| - 1;
      var init := acts[..n];
      forall i | 0 <= i < n && init[i].Leaves? ensures After(NewBucket(cap, marked), init[..i]).live > 0 {
        assert init[..i] == acts[..i] && init[i] == acts[i];
      }
      RereadsAre(cap, marked, init);
      hide Noted, Acted;
      NotedStep(After(NewBucket(cap, marked), init), acts[n], ReadsInARow(init));
    }
  }

  // ---- Room ----

  lemma {:induction false} PowerIsLeast(n: nat)
    requires n > 1
    ensures n <= PowerAbove(n) < 2 * n
  {
    if n > 2 {
      PowerIsLeast((n + 1) / 2);
    }
  }

  /** The entries fit, and no more than twice their number is set aside, but for what there was at first. */
  ghost predicate Snug(b: Bucket, cap: nat) {
    |b.data| <= b.cap && (b.cap <= INITIAL_CAP || b.cap <= cap || b.cap <= 2 * |b.data|)
  }

  lemma SnugStep(b: Bucket, a: Act, cap: nat)
    requires Snug(b, cap)
    ensures Snug(Acted(b, a), cap)
  {
    if a.Compacts? && |a.kept| > 1 {
      PowerIsLeast(|a.kept|);
    }
  }

  /**
   Over every sequence of acts on a new bucket: its backing is never too small, and never more than twice too large.
   */
  lemma {:induction false} RoomBound(cap: nat, marked: bool, acts: seq<Act>)
    ensures Snug(After(NewBucket(cap, marked), acts), cap)
  {
    if acts != [] {
      RoomBound(cap, marked, acts[..|acts| - 1]);
      hide Acted, Snug;
      SnugStep(After(NewBucket(cap, marked), acts[..|acts| - 1]), acts[|acts| - 1], cap);
    }
  }

  // ---- How the holders change ----

  ghost predicate Same(col: Column, col': Column, v: nat) {
    forall x :: Holds(col', x, v) <==> Holds(col, x, v)
  }

  ghost predicate Gains(col: Column, col': Column, v: nat, e: nat) {
    !Holds(col, e, v) && forall x :: Holds(col', x, v) <==> Holds(col, x, v) || x == e
  }

  lemma SameCount(col: Column, col': Column, v: nat)
    requires Same(col, col', v)
    ensures Holders(col', v) == Holders(col, v)
  {
    assert forall x :: x in Holders(col, v) <==> Holds(col, x, v);
    assert forall x :: x in Holders(col', v) <==> Holds(col', x, v);
  }

  lemma GainCount(col: Column, col': Column, v: nat, e: nat)
    requires Gains(col, col', v, e)
    ensures |Holders(col', v)| == |Holders(col, v)| + 1
  {
    assert forall x :: x in Holders(col, v) <==> Holds(col, x, v);
    assert forall x :: x in Holders(col', v) <==> Holds(col', x, v);
    assert Holders(col', v) == Holders(col, v) + {e};
  }

  // ---- What each step keeps ----

  lemma FrameSound(b: Bucket, v: nat, col: Column, col': Column, on: bool)
    requires BucketSound(b, v, col, on) && Same(col, col', v)
    ensures BucketSound(b, v, col', on)
  {
    SameCount(col, col', v);
  }

  lemma NewSound(cap: nat, marked: bool, v: nat, col: Column, on: bool)
    requires forall x :: !Holds(col, x, v)
    ensures BucketSound(NewBucket(cap, marked), v, col, on) && Small(NewBucket(cap, marked))
  {
    assert Holders(col, v) == {} by {
      assert forall x :: x in Holders(col, v) <==> Holds(col, x, v);
    }
  }

  lemma PushShape(b: Bucket, e: nat)
    requires b.Shaped()
    ensures Pushed(b, e).Shaped()
    ensures forall i :: Pushed(b, e).Unmark(i) <==> b.Unmark(i) || i == |b.data|
    ensures true in Pushed(b, e).stale ==> true in b.stale
  {
    var p := Pushed(b, e);
    assert |b.stale| <= |p.stale|;
    assert forall i | 0 <= i < |b.stale| :: p.stale[i] == b.stale[i];
    assert forall i | |b.stale| <= i < |p.stale| :: !p.stale[i];
    if true in p.stale {
      var i :| 0 <= i < |p.stale| && p.stale[i];
      assert b.stale[i];
    }
  }

  lemma PushSound(b: Bucket, v: nat, col: Column, col': Column, on: bool, e: nat)
    requires BucketSound(b, v, col, on) && Gains(col, col', v, e)
    ensures BucketSound(Pushed(b, e), v, col', on)
    ensures Small(b) ==> Small(Pushed(b, e))
  {
    var p := Pushed(b, e);
    PushShape(b, e);
    GainCount(col, col', v, e);
    assert p.data == b.data + [e];
    if on && p.stale != [] && p.exact {
      PushMarks(b, v, col, col', e);
    }
  }

  lemma PushMarks(b: Bucket, v: nat, col: Column, col': Column, e: nat)
    requires b.Shaped() && Gains(col, col', v, e) && (forall x | Holds(col, x, v) :: x in b.data)
    requires if b.stale != [] then MarksExact(b, v, col) else b.data == []
    ensures MarksExact(Pushed(b, e), v, col')
  {
    var p, n := Pushed(b, e), |b.data|;
    PushShape(b, e);
    assert forall i | b.Unmark(i) :: p.data[i] == b.data[i];
    forall x | Holds(col', x, v) ensures exists i :: p.Unmark(i) && p.data[i] == x {
      if x == e {
        assert p.Unmark(n) && p.data[n] == e;
      } else {
        var i :| b.Unmark(i) && b.data[i] == x;
        assert p.Unmark(i);
      }
    }
  }

  lemma MarkShape(b: Bucket, at: Option<nat>)
    requires b.Shaped()
    ensures var m := Marked(b, at); m.Shaped() && m.data == b.data && m.live == b.live && m.removed == b.removed
    ensures b.stale == [] || at.None? || at.value >= |b.data| ==> forall i :: Marked(b, at).Unmark(i) <==> b.Unmark(i)
    ensures b.stale != [] && at.Some? && at.value < |b.data| ==> forall i :: Marked(b, at).Unmark(i) <==>
      b.Unmark(i) && i != at.value
  {
  }

  /** An entity leaves a value: its entry goes stale. */
  lemma StaleSound(b: Bucket, v: nat, col: Column, col': Column, on: bool, e: nat, at: Option<nat>)
    requires BucketSound(b, v, col, on) && Gains(col', col, v, e)
    requires at.Some? ==> b.Unmark(at.value) && b.data[at.value] == e
    ensures BucketSound(Staled(b, at, on), v, col', on)
    ensures Staled(b, at, on).live == b.live - 1
  {
    GainCount(col', col, v, e);
    var s := Staled(b, at, on);
    if on {
      MarkShape(b, at);
    }
    if on && s.stale != [] && s.exact {
      assert at.Some?;
      StaleMarks(b, v, col, col', e, at.value, s);
    }
  }

  /** The entity at a place loses the value; the place may not be known. */
  ghost predicate LosesAt(b: Bucket, v: nat, col: Column, col': Column, e: nat, at: Option<nat>) {
    Gains(col', col, v, e) && (at.Some? ==> b.Unmark(at.value) && b.data[at.value] == e)
  }

  lemma LeftCount(b: Bucket, v: nat, col: Column, on: bool)
    requires BucketSound(b, v, col, on)
    ensures b.live == |Holders(col, v)|
  {
  }

  lemma StaleMarks(b: Bucket, v: nat, col: Column, col': Column, e: nat, p: nat, s: Bucket)
    requires MarksExact(b, v, col) && Gains(col', col, v, e) && b.Unmark(p) && b.data[p] == e
    requires s.data == b.data && forall i :: s.Unmark(i) <==> b.Unmark(i) && i != p
    ensures MarksExact(s, v, col')
  {
    forall x | Holds(col', x, v) ensures exists i :: s.Unmark(i) && s.data[i] == x {
      var i :| b.Unmark(i) && b.data[i] == x;
      assert s.Unmark(i);
    }
  }

  lemma {:induction false} AscendingCount(s: seq<nat>)
    requires Ascending(s)
    ensures |s| == |Members(s)|
  {
    if s != [] {
      var init, x := s[..|s| - 1], s[|s| - 1];
      AscendingCount(init);
      assert s == init + [x] && x !in init;
      assert Members(s) == Members(init) + {x};
    }
  }

  lemma CompactSound(b: Bucket, v: nat, col: Column, on: bool, kept: seq<nat>)
    requires b.Shaped() && Ascending(kept) && forall e :: e in kept <==> Holds(col, e, v)
    ensures BucketSound(Compacted(b, kept), v, col, on) && Small(Compacted(b, kept))
    ensures forall i :: Compacted(b, kept).Unmark(i) <==> 0 <= i < |kept|
  {
    AscendingCount(kept);
    assert Holders(col, v) == Members(kept) by {
      assert forall x :: x in Holders(col, v) <==> Holds(col, x, v);
    }
    var c := Compacted(b, kept);
    assert forall i :: c.Unmark(i) <==> 0 <= i < |kept|;
    forall e | Holds(col, e, v) ensures exists i :: c.Unmark(i) && c.data[i] == e {
      var i :| 0 <= i < |kept| && kept[i] == e;
      assert c.Unmark(i);
    }
  }

  // ---- What each step keeps of the whole index ----

  /** The value leaves a cell. */
  lemma LeaveKeeps(idx: Index, slots: map<nat, nat>, col: Column, on: bool, e: nat, idx': Index)
    requires IndexSound(idx, slots, col, on) && e < |col| && col[e] != 0
    requires var at := if e in slots then Some(slots[e]) else None;
      idx' == idx[col[e] - 1 := Staled(idx[col[e] - 1], at, on)]
    ensures IndexSound(idx', slots - {e}, col[e := 0], on)
    ensures AllSmall(idx) ==> forall v | v in idx' && v + 1 != col[e] :: Small(idx'[v])
  {
    hide BucketSound, Small;
    var o, col' := col[e] - 1, col[e := 0];
    var at := if e in slots then Some(slots[e]) else None;
    if e in slots {
      assert SlotOk(e, slots[e], idx, col);
    }
    assert Gains(col', col, o, e);
    StaleSound(idx[o], o, col, col', on, e, at);
    forall v | v in idx' ensures BucketSound(idx'[v], v, col', on) {
      if v != o {
        FrameSound(idx[v], v, col, col', on);
      }
    }
    forall x | x in slots - {e} ensures SlotOk(x, slots[x], idx', col') {
      assert SlotOk(x, slots[x], idx, col);
      if col[x] == col[e] && on {
        assert idx[o].Shaped() by {
          ShapeOf(idx[o], o, col, on);
        }
        MarkShape(idx[o], at);
      }
    }
  }

  lemma ShapeOf(b: Bucket, v: nat, col: Column, on: bool)
    requires BucketSound(b, v, col, on)
    ensures b.Shaped()
  {
  }

  function Grown(col: Column, e: nat): (r: Column)
    ensures e < |r| && |col| <= |r| && r[..|col|] == col && forall i | |col| <= i < |r| :: r[i] == 0
  {
    if e < |col| then col else col + seq(e + 1 - |col|, _ => 0)
  }

  /** Empty cells at the end of the column change nothing. */
  lemma GrowKeeps(idx: Index, slots: map<nat, nat>, col: Column, on: bool, col': Column)
    requires IndexSound(idx, slots, col, on) && |col| <= |col'| && col'[..|col|] == col
    requires forall i | |col| <= i < |col'| :: col'[i] == 0
    ensures IndexSound(idx, slots, col', on)
  {
    hide BucketSound;
    assert forall i | 0 <= i < |col| :: col'[i] == col'[..|col|][i];
    forall v | v in idx ensures BucketSound(idx[v], v, col', on) {
      FrameSound(idx[v], v, col, col', on);
    }
    forall e | e in slots ensures SlotOk(e, slots[e], idx, col') {
      assert SlotOk(e, slots[e], idx, col);
    }
  }

  /** A value enters an empty cell; its bucket is made if there is none. */
  lemma EnterKeeps(idx: Index, slots: map<nat, nat>, col: Column, on: bool, e: nat, v: nat, b: Bucket, idx': Index,
      slots': map<nat, nat>)
    requires IndexSound(idx, slots, col, on) && e < |col| && col[e] == 0
    requires if v in idx then b == idx[v] else exists cap, marked :: b == NewBucket(cap, marked)
    requires idx' == idx[v := Pushed(b, e)] && (slots' == slots || slots' == slots[e := |b.data|])
    ensures IndexSound(idx', slots', col[e := v + 1], on)
    ensures (v in idx ==> Small(idx[v])) ==> Small(idx'[v])
  {
    hide BucketSound, Pushed, Small;
    var col' := col[e := v + 1];
    if v !in idx {
      var cap, marked :| b == NewBucket(cap, marked);
      NewSound(cap, marked, v, col, on);
    }
    assert Gains(col, col', v, e);
    PushSound(b, v, col, col', on, e);
    forall w | w in idx' ensures BucketSound(idx'[w], w, col', on) {
      if w != v {
        FrameSound(idx[w], w, col, col', on);
      }
    }
    ShapeOf(b, v, col, on);
    EnterSlots(idx, slots, col, e, v, b, idx', slots');
  }

  lemma EnterSlots(idx: Index, slots: map<nat, nat>, col: Column, e: nat, v: nat, b: Bucket, idx': Index,
      slots': map<nat, nat>)
    requires (forall x | x in slots :: SlotOk(x, slots[x], idx, col)) && e < |col| && col[e] == 0
    requires b.Shaped() && (v in idx ==> b == idx[v]) && idx' == idx[v := Pushed(b, e)]
    requires slots' == slots || slots' == slots[e := |b.data|]
    ensures forall x | x in slots' :: SlotOk(x, slots'[x], idx', col[e := v + 1])
  {
    PushShape(b, e);
    PushData(b, e);
    hide Pushed;
    assert e in slots ==> SlotOk(e, slots[e], idx, col);
    forall x | x in slots' ensures SlotOk(x, slots'[x], idx', col[e := v + 1]) {
      if x != e {
        assert SlotOk(x, slots[x], idx, col);
      }
    }
  }

  lemma PushData(b: Bucket, e: nat)
    ensures Pushed(b, e).data == b.data + [e]
  {
  }

  /** The index once the value of cell `e` has been noted to leave. */
  function AfterLeave(idx: Index, slots: map<nat, nat>, col: Column, on: bool, e: nat): Index
    requires e < |col| && (col[e] != 0 ==> col[e] - 1 in idx)
  {
    if col[e] == 0 then idx
    else idx[col[e] - 1 := Staled(idx[col[e] - 1], if e in slots then Some(slots[e]) else None, on)]
  }

  lemma Left(idx: Index, slots: map<nat, nat>, col: Column, on: bool, e: nat)
    requires IndexSound(idx, slots, col, on) && AllSmall(idx) && e < |col|
    ensures col[e] != 0 ==> col[e] - 1 in idx
    ensures IndexSound(AfterLeave(idx, slots, col, on, e), slots - {e}, col[e := 0], on)
    ensures forall v | v in idx && v + 1 != col[e] :: Small(AfterLeave(idx, slots, col, on, e)[v])
  {
    hide IndexSound, Small, Staled;
    ValueHasBucket(idx, slots, col, on, e);
    if col[e] == 0 {
      assert col[e := 0] == col && slots - {e} == slots;
    } else {
      LeaveKeeps(idx, slots, col, on, e, AfterLeave(idx, slots, col, on, e));
    }
  }

  lemma ValueHasBucket(idx: Index, slots: map<nat, nat>, col: Column, on: bool, e: nat)
    requires IndexSound(idx, slots, col, on) && e < |col|
    ensures if col[e] != 0 then col[e] - 1 in idx else e !in slots
  {
    assert e in slots ==> SlotOk(e, slots[e], idx, col);
  }

  /** The bucket an entry of value `v` goes to. */
  function BucketOf(idx: Index, v: nat, cap: nat, on: bool): Bucket {
    if v in idx then idx[v] else NewBucket(cap, on)
  }

  lemma BucketOfShaped(idx: Index, v: nat, cap: nat, on: bool)
    requires v in idx ==> idx[v].Shaped()
    ensures BucketOf(idx, v, cap, on).Shaped()
  {
  }

  /** The index once cell `e` has been given `x`, before compaction. */
  function Moved(idx: Index, slots: map<nat, nat>, col: Column, on: bool, e: nat, x: nat): Index
    requires e < |col| && (col[e] != 0 ==> col[e] - 1 in idx)
  {
    var mid := AfterLeave(idx, slots, col, on, e);
    if x == 0 then mid else mid[x - 1 := Pushed(BucketOf(mid, x - 1, INITIAL_CAP, on), e)]
  }

  function MovedSlots(idx: Index, slots: map<nat, nat>, on: bool, e: nat, x: nat, room: nat): map<nat, nat> {
    if x == 0 then slots - {e} else if e < room then slots[e := |BucketOf(idx, x - 1, INITIAL_CAP, on).data|] else slots
  }

  /** A cell moves from one value to another one, or to none. */
  lemma MoveKeeps(idx: Index, slots: map<nat, nat>, col: Column, on: bool, e: nat, x: nat, room: nat)
    requires IndexSound(idx, slots, col, on) && AllSmall(idx) && e < |col| && x != col[e]
    requires forall s | s in slots :: s < room
    ensures col[e] != 0 ==> col[e] - 1 in idx
    ensures IndexSound(Moved(idx, slots, col, on, e, x), MovedSlots(idx, slots, on, e, x, room), col[e := x], on)
    ensures forall s | s in MovedSlots(idx, slots, on, e, x, room) :: s < room
    ensures OthersSmall(Moved(idx, slots, col, on, e, x), col[e])
    ensures col[e] != 0 ==> var m, l := Moved(idx, slots, col, on, e, x), AfterLeave(idx, slots, col, on, e);
      col[e] - 1 in m && col[e] - 1 in l && m[col[e] - 1] == l[col[e] - 1]
  {
    hide IndexSound, Small, Staled, Pushed;
    Left(idx, slots, col, on, e);
    if x != 0 {
      var mid := AfterLeave(idx, slots, col, on, e);
      var b := BucketOf(mid, x - 1, INITIAL_CAP, on);
      assert b == BucketOf(idx, x - 1, INITIAL_CAP, on);
      assert col[e := 0][e := x] == col[e := x];
      assert (slots - {e})[e := |b.data|] == slots[e := |b.data|];
      assert e >= room ==> slots - {e} == slots;
      EnterKeeps(mid, slots - {e}, col[e := 0], on, e, x - 1, b, Moved(idx, slots, col, on, e, x),
        MovedSlots(idx, slots, on, e, x, room));
    }
  }

  /** What a build has done once it has read the cells before `e`: no entry is stale. */
  ghost predicate BuiltTo(idx: Index, slots: map<nat, nat>, col: Column, on: bool, e: nat, room: nat) {
    && e <= |col| && IndexSound(idx, slots, col[..e], on) && AllSmall(idx)
    && (forall s | s in slots :: s < room) && forall v | v in idx :: !idx[v].removed
  }

  lemma NothingBuilt(col: Column, on: bool, room: nat)
    ensures BuiltTo(map[], map[], col, on, 0, room)
  {
  }

  lemma BuildSkips(idx: Index, slots: map<nat, nat>, col: Column, on: bool, e: nat, room: nat)
    requires BuiltTo(idx, slots, col, on, e, room) && e < |col| && col[e] == 0
    ensures BuiltTo(idx, slots, col, on, e + 1, room)
  {
    hide IndexSound, Small;
    assert col[..e + 1][..e] == col[..e];
    GrowKeeps(idx, slots, col[..e], on, col[..e + 1]);
  }

  lemma BuildAdds(idx: Index, slots: map<nat, nat>, col: Column, on: bool, e: nat, room: nat, cap: nat, b: Bucket)
    requires BuiltTo(idx, slots, col, on, e, room) && e < |col| && col[e] != 0
    requires b == BucketOf(idx, col[e] - 1, cap, on)
    ensures b.Shaped()
    ensures BuiltTo(idx[col[e] - 1 := Pushed(b, e)], if e < room then slots[e := |b.data|] else slots, col, on, e + 1,
      room)
  {
    hide IndexSound, Small;
    var v, before := col[e] - 1, col[..e] + [0];
    if v in idx {
      CoversHolders(idx, slots, col[..e], on, v);
    }
    assert before[..e] == col[..e];
    GrowKeeps(idx, slots, col[..e], on, before);
    assert before[e := col[e]] == col[..e + 1];
    EnterKeeps(idx, slots, before, on, e, v, b, idx[v := Pushed(b, e)], if e < room then slots[e := |b.data|]
      else slots);
  }

  lemma CoversHolders(idx: Index, slots: map<nat, nat>, col: Column, on: bool, v: nat)
    requires IndexSound(idx, slots, col, on) && v in idx
    ensures idx[v].Shaped() && forall e | Holds(col, e, v) :: e in idx[v].data
  {
    assert BucketSound(idx[v], v, col, on);
  }

  /** The bucket lists exactly the holders, ascending, with nothing stale. */
  ghost predicate JustCompacted(b: Bucket, col: Column, v: nat) {
    Small(b) && !b.removed && Ascending(b.data) && Answers(b.data, col, v)
  }

  /** A bucket is compacted against the column. */
  lemma CompactKeeps(idx: Index, slots: map<nat, nat>, col: Column, on: bool, v: nat, kept: seq<nat>, room: nat,
      idx': Index)
    requires IndexSound(idx, slots, col, on) && v in idx && forall e | e in slots :: e < room
    requires Ascending(kept) && (forall e :: e in kept <==> Holds(col, e, v))
    requires idx' == idx[v := Compacted(idx[v], kept)]
    ensures NoRepeat(kept) && IndexSound(idx', Placed(slots, kept, room), col, on)
    ensures JustCompacted(idx'[v], col, v)
    ensures forall e | e in Placed(slots, kept, room) :: e < room
  {
    hide BucketSound, Small;
    ShapeOf(idx[v], v, col, on);
    CompactSound(idx[v], v, col, on, kept);
    PlacedOk(idx, slots, col, v, kept, room, Compacted(idx[v], kept), idx', Placed(slots, kept, room));
  }

  lemma PlacedOk(idx: Index, slots: map<nat, nat>, col: Column, v: nat, kept: seq<nat>, room: nat, c: Bucket,
      idx': Index,
                 slots': map<nat, nat>)
    requires (forall e | e in slots :: SlotOk(e, slots[e], idx, col)) && v in idx && forall e | e in slots :: e < room
    requires NoRepeat(kept) && (forall e :: e in kept <==> Holds(col, e, v)) && slots' == Placed(slots, kept, room)
    requires c.data == kept && (forall i | 0 <= i < |kept| :: c.Unmark(i)) && idx' == idx[v := c]
    ensures forall x | x in slots' :: SlotOk(x, slots'[x], idx', col) && x < room
  {
    forall x | x in slots' ensures SlotOk(x, slots'[x], idx', col) && x < room {
      PlacedAt(slots, kept, room, x);
      if x in kept && x < room {
        assert Holds(col, x, v) && c.Unmark(slots'[x]);
      } else {
        assert SlotOk(x, slots[x], idx, col);
        assert x in kept <==> Holds(col, x, v);
      }
    }
  }

  lemma PlacedAt(slots: map<nat, nat>, kept: seq<nat>, room: nat, x: nat)
    requires NoRepeat(kept) && x in Placed(slots, kept, room)
    ensures if x in kept && x < room
      then Placed(slots, kept, room)[x] < |kept| && kept[Placed(slots, kept, room)[x]] == x
      else x in slots && Placed(slots, kept, room)[x] == slots[x]
  {
    if x in kept && x < room {
      var i :| 0 <= i < |kept| && kept[i] == x;
      assert Placed(slots, kept, room)[x] == i;
    }
  }

  // ---- What a read finds ----

  lemma {:induction false} UnmarkedIs(s: seq<nat>, marks: seq<bool>)
    requires |s| <= |marks|
    ensures forall e :: e in Unmarked(s, marks) <==> exists i :: 0 <= i < |s| && !marks[i] && s[i] == e
  {
    if s != [] {
      var n := |s| - 1;
      var init := s[..n];
      UnmarkedIs(init, marks);
      assert forall i | 0 <= i < n :: init[i] == s[i];
      forall e ensures e in Unmarked(s, marks) <==> exists i :: 0 <= i < |s| && !marks[i] && s[i] == e {
        if e in Unmarked(init, marks) {
          var i :| 0 <= i < n && !marks[i] && init[i] == e;
          assert s[i] == e;
        }
      }
    }
  }

  lemma {:induction false} UnmarkedOnce(s: seq<nat>, marks: seq<bool>)
    requires |s| <= |marks| && forall i, j | 0 <= i < j < |s| && !marks[i] && !marks[j] :: s[i] != s[j]
    ensures NoRepeat(Unmarked(s, marks))
  {
    if s != [] {
      var n := |s| - 1;
      var init := s[..n];
      UnmarkedOnce(init, marks);
      UnmarkedIs(init, marks);
      var u := Unmarked(init, marks);
      forall k | 0 <= k < |u| && !marks[n] ensures u[k] != s[n] {
        assert u[k] in u;
      }
    }
  }

  lemma MarkedAnswers(b: Bucket, v: nat, col: Column)
    requires b.Shaped() && b.stale != [] && MarksExact(b, v, col)
    ensures Answers(Unmarked(b.data, b.stale), col, v)
  {
    UnmarkedIs(b.data, b.stale);
    forall i, j | 0 <= i < j < |b.data| && !b.stale[i] && !b.stale[j] ensures b.data[i] != b.data[j] {
      assert b.Unmark(i) && b.Unmark(j);
    }
    UnmarkedOnce(b.data, b.stale);
    forall e ensures e in Unmarked(b.data, b.stale) <==> Holds(col, e, v) {
      if Holds(col, e, v) {
        var i :| b.Unmark(i) && b.data[i] == e;
      }
      if e in Unmarked(b.data, b.stale) {
        var i :| 0 <= i < |b.data| && !b.stale[i] && b.data[i] == e;
        assert b.Unmark(i);
      }
    }
  }

  /** Stale entries never make up more than the live ones, beyond the first 64. */
  lemma RawLength(b: Bucket, v: nat, col: Column, on: bool)
    requires BucketSound(b, v, col, on) && Small(b)
    ensures |b.data| < |Holders(col, v)| + COMPACT_MIN_LEN || |b.data| < 2 * |Holders(col, v)|
  {
  }
}
