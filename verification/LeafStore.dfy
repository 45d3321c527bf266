/**
 The leaf store (crates/enchudb-engine/src/leaf_store.rs): a slot allocator over a region of 32-bit
 words (shift 2). A slot is [size in bytes | HAS_GEN][length in bytes][generation][payload].

 `slots` are the slots handed out and not freed yet, with their sizes in words: what the free list is
 judged against. `dead` are the offsets of slots with a generation that were freed and whose header has
 been in free space since. No code reads either.
 */
module LeafStores {
  import opened Wrappers
  import opened LeafTiling
  import opened Ordering

  const HDR: nat := 3        // SLOT_HEADER_GEN
  const MIN_HOLE: nat := 3   // a hole header needs room for its generation
  const MIN_SLOT: nat := 2   // a slot of the older form, without a generation
  const HOLE_GEN: nat := 1

  datatype LeafRead = Ok(len: nat, payload: seq<nat>) | Retry

  predicate Odd(x: nat) {
    x % 2 == 1
  }

  /** Bit 0 of the size word: the slot has a generation. */
  predicate HasGen(ss: nat) {
    Odd(ss)
  }

  /** `try_read`, with no writer in between. */
  function TryRead(d: seq<nat>, o: nat): LeafRead {
    if o + 2 > |d| then Retry
    else if HasGen(d[o]) then
      if o + HDR > |d| || Odd(d[o + 2]) then Retry
      else ReadBody(d, o + HDR, d[o + 1], d[o] - 1, 12)
    else if d[o] < 8 then Retry
    else ReadBody(d, o + 2, d[o + 1], d[o], 8)
  }

  function ReadBody(d: seq<nat>, at: nat, len: nat, bytes: nat, hdr: nat): LeafRead {
    if len + hdr > bytes || at + (len + 3) / 4 > |d| then Retry
    else Ok(len, d[at..at + (len + 3) / 4])
  }

  /** A slot header that no reader takes for a payload. */
  ghost predicate Unreadable(d: seq<nat>, o: nat) {
    o + HDR <= |d| && HasGen(d[o]) && Odd(d[o + 2])
  }

  lemma UnreadableIsRetry(d: seq<nat>, o: nat)
    requires Unreadable(d, o)
    ensures TryRead(d, o) == Retry
  {
  }

  /** The three header words at `o` are in no slot. */
  ghost predicate HeaderFree(slots: map<nat, nat>, o: nat) {
    START <= o && forall w | o <= w < o + HDR :: !InMap(slots, w)
  }

  /** From `d` to `e`, unreadable headers that are in no slot of `t` stayed unreadable. */
  ghost predicate StaysUnreadable(d: seq<nat>, e: seq<nat>, t: map<nat, nat>) {
    forall o | Unreadable(d, o) && HeaderFree(t, o) :: Unreadable(e, o)
  }

  /** The three header words at `o` are in no slot, or all in the slot that starts there. */
  ghost predicate HeaderWhole(slots: map<nat, nat>, o: nat) {
    HeaderFree(slots, o) || (START <= o && o in slots && HDR <= slots[o])
  }

  /** From `d` to `e`, unreadable headers stayed unreadable if they were in no slot of `s`, or in the one they start. */
  ghost predicate MarksStay(d: seq<nat>, e: seq<nat>, s: map<nat, nat>) {
    forall o | Unreadable(d, o) && HeaderWhole(s, o) :: Unreadable(e, o)
  }

  /** From `d` to `e`, the words of the slots `t` are as they were. */
  ghost predicate SlotsKept(d: seq<nat>, e: seq<nat>, t: map<nat, nat>) {
    |d| == |e| && forall w | 0 <= w < |d| && InMap(t, w) :: e[w] == d[w]
  }

  /** The index by size holds the same holes as the index by offset. */
  ghost predicate Indexed(byOff: map<nat, nat>, bySize: set<(nat, nat)>) {
    forall size, off :: (size, off) in bySize <==> off in byOff && byOff[off] == size
  }

  predicate SizeOrder(x: (nat, nat), y: (nat, nat)) {
    x.0 < y.0 || (x.0 == y.0 && x.1 <= y.1)
  }

  /**
   The hole that ends where a block starts, if there is one, is the last one before it; the one after starts at its
   end.
   */
  lemma Neighbours(slots: map<nat, nat>, hw: nat, holes: map<nat, nat>, off: nat, n: nat, p: Option<nat>)
    requires Canonical(slots, hw, holes) && Block(slots, off, n)
    requires p.Some? ==> p.value in holes && p.value < off && forall q | q in holes && q < off :: q <= p.value
    requires p.None? ==> forall q | q in holes :: off <= q
    ensures var lo := if p.Some? && p.value + holes[p.value] == off then p.value else off;
      var hi := if off + n in holes then off + n + holes[off + n] else off + n;
      off !in holes && Joined(slots, hw, holes, off, n, lo, hi)
  {
    hide InMap, SlotsOk;
    BlockEnds(slots, off, n);
    hide Block;
    assert !Free(slots, hw, off);
    if off in holes {
      RunOf(slots, hw, holes, off);
    }
    if Free(slots, hw, off + n) {
      StartsHole(slots, hw, holes, off + n);
    }
    if Free(slots, hw, off as int - 1) {
      HoleOf(slots, hw, holes, off - 1);
      HoleBefore(slots, hw, holes, off, p.value);
    }
  }

  lemma BlockEnds(slots: map<nat, nat>, off: nat, n: nat)
    requires Block(slots, off, n)
    ensures InMap(slots, off) && InMap(slots, off + n - 1)
  {
    var last: int := off + n - 1;
    assert InMap(slots, off) && InMap(slots, last);
  }

  lemma HoleOf(slots: map<nat, nat>, hw: nat, holes: map<nat, nat>, w: int)
    requires HolesOk(slots, hw, holes) && Free(slots, hw, w)
    ensures exists o | o in holes :: o <= w < o + holes[o]
  {
    assert InMap(holes, w);
  }

  ghost function Bytes(pending: seq<(nat, nat, nat)>): nat {
    if pending == [] then 0 else pending[0].2 + Bytes(pending[1..])
  }

  /** Whether the generation word of a slot is its own. */
  ghost predicate OwnGen(slots: map<nat, nat>, d: seq<nat>, o: nat) {
    o in slots && o < |d| && (HasGen(d[o]) ==> HDR <= slots[o])
  }

  /** Retired slots are in epoch order, none twice. */
  ghost predicate Waiting(pending: seq<(nat, nat, nat)>, epoch: nat) {
    && (forall i | 0 <= i < |pending| :: pending[i].0 <= epoch)
    && (forall i, j | 0 <= i < j < |pending| :: pending[i].0 <= pending[j].0 && pending[i].1 != pending[j].1)
  }

  ghost predicate RetiredFits(pending: seq<(nat, nat, nat)>, slots: map<nat, nat>) {
    forall i | 0 <= i < |pending| :: pending[i].1 in slots && pending[i].2 / 4 == slots[pending[i].1]
  }

  /** A new slot leaves the retired ones as they are. */
  lemma RetiredStays(pending: seq<(nat, nat, nat)>, s: map<nat, nat>, t: map<nat, nat>, o: nat)
    requires RetiredFits(pending, s) && o !in s && o in t && t == s[o := t[o]]
    ensures RetiredFits(pending, t)
  {
  }

  ghost predicate HeaderOk(d: seq<nat>, o: nat, n: nat) {
    MIN_SLOT <= n && o < |d| && d[o] / 4 == n && (HasGen(d[o]) && HDR <= n ==> o + 2 < |d| && !Odd(d[o + 2]))
  }

  ghost predicate AllHeaded(slots: map<nat, nat>, d: seq<nat>) {
    forall o | o in slots :: HeaderOk(d, o, slots[o])
  }

  ghost predicate AllDead(dead: set<nat>, slots: map<nat, nat>, d: seq<nat>) {
    forall o | o in dead :: HeaderFree(slots, o) && Unreadable(d, o)
  }

  class LeafStore {
    const words: array<nat>
    var hw: nat
    var byOff: map<nat, nat>
    var bySize: set<(nat, nat)>
    var genSeq: nat
    var epoch: nat
    var pending: seq<(nat, nat, nat)>
    var bytes: nat
    ghost var slots: map<nat, nat>
    ghost var dead: set<nat>

    /** Both indexes hold the canonical free list. */
    ghost predicate Tiled()
      reads this`slots, this`hw, this`byOff, this`bySize
    {
      Canonical(slots, hw, byOff) && hw <= words.Length && Indexed(byOff, bySize)
    }

    constructor (length: nat)
      requires START <= length
      ensures Valid() && slots == map[] && hw == START && byOff == map[] && words.Length == length
    {
      words := new nat[length](_ => 0);
      hw, byOff, bySize := START, map[], {};
      genSeq, epoch, pending, bytes, slots, dead := 0, 0, [], 0, map[], {};
    }

    // ---- Holes ----

    method HolesInsert(off: nat, size: nat)
      requires Indexed(byOff, bySize)
      modifies this`byOff, this`bySize
      ensures byOff == old(byOff)[off := size] && Indexed(byOff, bySize)
    {
      if off in byOff {
        bySize := bySize - {(byOff[off], off)};
      }
      bySize := bySize + {(size, off)};
      byOff := byOff[off := size];
    }

    method HolesRemove(off: nat) returns (size: Option<nat>)
      requires Indexed(byOff, bySize)
      modifies this`byOff, this`bySize
      ensures size == if off in old(byOff) then Some(old(byOff)[off]) else None
      ensures byOff == old(byOff) - {off} && Indexed(byOff, bySize)
    {
      if off !in byOff {
        assert byOff - {off} == byOff;
        return None;
      }
      size := Some(byOff[off]);
      bySize := bySize - {(byOff[off], off)};
      byOff := byOff - {off};
    }

    /** The last hole that starts before `off`. */
    method Before(off: nat) returns (p: Option<nat>)
      ensures p.Some? ==> p.value in byOff && p.value < off && forall q | q in byOff && q < off :: q <= p.value
      ensures p.None? ==> forall q | q in byOff :: off <= q
    {
      var below: set<nat> := set q | q in byOff && q < off;
      if below == {} {
        assert forall q | q in byOff && q < off :: q in below;
        return None;
      }
      HasLeast(below, (x: nat, y: nat) => x >= y);
      var q: nat :| q in below && forall r | r in below :: r <= q;
      assert forall r | r in byOff && r < off :: r in below;
      p := Some(q);
    }

    /** Best fit: the smallest hole of at least `need` words, the lowest of those. */
    method BestFit(need: nat) returns (h: Option<nat>)
      requires Indexed(byOff, bySize)
      ensures h.Some? ==> h.value in byOff && need <= byOff[h.value]
      ensures h.Some? ==> forall o | o in byOff && need <= byOff[o] ::
        SizeOrder((byOff[h.value], h.value), (byOff[o], o))
      ensures h.None? ==> forall o | o in byOff :: byOff[o] < need
    {
      var fit := set x | x in bySize && need <= x.0;
      if fit == {} {
        assert forall o | o in byOff && need <= byOff[o] :: (byOff[o], o) in fit;
        return None;
      }
      HasLeast(fit, SizeOrder);
      var x :| x in fit && forall y | y in fit :: SizeOrder(x, y);
      assert forall o | o in byOff && need <= byOff[o] :: (byOff[o], o) in fit;
      h := Some(x.1);
    }

    /** Mark a hole so that no reader with an old offset reads it. */
    method WriteHoleHeader(off: nat, n: nat)
      requires 0 < n && off + n <= words.Length
      modifies words
      ensures n >= MIN_HOLE ==> words[..] == old(words[..])[off := 4 * n + 1][off + 2 := HOLE_GEN]
      ensures n < MIN_HOLE ==> words[..] == old(words[..])[off := 4 * n]
    {
      if n >= MIN_HOLE {
        words[off + 2] := HOLE_GEN;
        words[off] := 4 * n + 1;
      } else {
        words[off] := 4 * n;
      }
    }

    /** Put a freed block in the free list: join it to the holes next to it, or lower the high-water mark. */
    method InsertHole(off: nat, n: nat)
      requires Tiled() && 0 < n && Block(slots, off, n)
      modifies this`byOff, this`bySize, this`hw, this`slots, words
      ensures Tiled() && slots == Outside(old(slots), off, n)
      ensures SlotsKept(old(words[..]), words[..], slots)
      ensures StaysUnreadable(old(words[..]), words[..], slots)
    {
      hide InMap, EdgesOk, WordsOk, SlotsOk, Block, Free;
      ghost var s0, h0, w0 := slots, byOff, words[..];
      var p := Before(off);
      Neighbours(slots, hw, byOff, off, n, p);
      var lo, size := off, n;
      if p.Some? && p.value + byOff[p.value] == off {
        var psize := HolesRemove(p.value);
        lo, size := p.value, n + psize.value;
      }
      if off + n in byOff {
        var nsize := HolesRemove(off + n);
        size := size + nsize.value;
      }
      assert byOff == h0 - {lo} - {off + n};
      FreeKeeps(s0, hw, h0, off, n, lo, lo + size);
      slots := Outside(slots, off, n);
      if lo + size == hw {
        hw := lo;
      } else {
        WriteHoleHeader(lo, size);
        HolesInsert(lo, size);
        HoleHeaderHarmless(w0, words[..], slots, hw, byOff, lo);
      }
    }

    // ---- Slots ----

    /** Every slot says its own size, and that it can be read. */
    ghost predicate Headed()
      reads this`slots, words
    {
      AllHeaded(slots, words[..])
    }

    ghost predicate RetiredOk()
      reads this`slots, this`pending, this`epoch, this`bytes
    {
      bytes == Bytes(pending) && Waiting(pending, epoch) && RetiredFits(pending, slots)
    }

    ghost predicate Valid()
      reads this, words
    {
      Tiled() && Headed() && genSeq % 2 == 0 && RetiredOk() && DeadOk()
    }

    /** A freed slot stays unreadable for as long as its header is in free space. */
    ghost predicate DeadOk()
      reads this`slots, this`dead, words
    {
      AllDead(dead, slots, words[..])
    }

    /** Take `need` words: best fit, with the rest of the hole kept if it can be one, or above the high-water mark. */
    method Alloc(need: nat) returns (r: Option<(nat, nat)>)
      requires Tiled() && 0 < need
      modifies this`byOff, this`bySize, this`hw, this`slots, words
      ensures r.None? ==> unchanged(this) && unchanged(words) && words.Length < hw + need && forall o | o in byOff ::
        byOff[o] < need
      ensures r.Some? ==>
        var (o, n) := r.value;
        && Tiled() && o !in old(slots) && slots == old(slots)[o := n] && need <= n < need + MIN_HOLE
        && SlotsKept(old(words[..]), words[..], slots) && StaysUnreadable(old(words[..]), words[..], slots)
        && if o in old(byOff)
           then need <= old(byOff)[o] && forall p | p in old(byOff) && need <= old(byOff)[p] ::
             SizeOrder((old(byOff)[o], o), (old(byOff)[p], p))
           else o == old(hw) && old(hw) + need <= words.Length && forall p | p in old(byOff) :: old(byOff)[p] < need
    {
      hide InMap, EdgesOk, WordsOk, SlotsOk, Free;
      ghost var w0, h0 := words[..], byOff;
      var best := BestFit(need);
      if best.Some? {
        var o := best.value;
        var taken := HolesRemove(o);
        var size := taken.value;
        if size - need >= MIN_HOLE {
          TakeKeeps(slots, hw, h0, o, need);
          TopOfHole(slots, hw, h0, o);
          WriteHoleHeader(o + need, size - need);
          slots := slots[o := need];
          HolesInsert(o + need, size - need);
          HoleHeaderHarmless(w0, words[..], slots, hw, byOff, o + need);
          r := Some((o, need));
        } else {
          TakeKeeps(slots, hw, h0, o, size);
          slots := slots[o := size];
          r := Some((o, size));
        }
      } else if hw + need > words.Length {
        r := None;
      } else {
        GrowKeeps(slots, hw, byOff, need);
        HighWaterNoHole(slots, hw, byOff);
        r := Some((hw, need));
        slots := slots[hw := need];
        hw := hw + need;
      }
    }

    /** Write a slot: its size, an odd generation, length and payload, then the even generation. */
    method WriteSlot(o: nat, n: nat, len: nat, payload: seq<nat>, gen: nat) returns (ghost stores: seq<(nat, nat)>)
      requires o + HDR + |payload| <= o + n <= words.Length && gen % 2 == 0
      modifies words
      ensures forall w | 0 <= w < words.Length && !(o <= w < o + n) :: words[w] == old(words[w])
      ensures words[o] == 4 * n + 1 && words[o + 1] == len && words[o + 2] == gen
      ensures words[o + HDR..o + HDR + |payload|] == payload
      ensures stores == SlotStores(o, n, len, payload, gen)
    {
      stores := StoreWord(o, 4 * n + 1, []);
      stores := StoreWord(o + 2, gen + 1, stores);
      stores := StoreWord(o + 1, len, stores);
      ghost var head := stores;
      for i := 0 to |payload|
        invariant forall w | 0 <= w < words.Length && !(o <= w < o + n) :: words[w] == old(words[w])
        invariant words[o] == 4 * n + 1 && words[o + 1] == len
        invariant forall j | 0 <= j < i :: words[o + HDR + j] == payload[j]
        invariant stores == head + PayloadStores(o, payload[..i])
      {
        assert payload[..i + 1][..i] == payload[..i];
        stores := StoreWord(o + HDR + i, payload[i], stores);
      }
      assert payload[..|payload|] == payload;
      stores := StoreWord(o + 2, gen, stores);
    }

    /** One atomic store; `stores` lists them. */
    method StoreWord(p: nat, x: nat, ghost done: seq<(nat, nat)>) returns (ghost stores: seq<(nat, nat)>)
      requires p < words.Length
      modifies words
      ensures words[p] == x && forall w | 0 <= w < words.Length && w != p :: words[w] == old(words[w])
      ensures stores == done + [(p, x)]
    {
      words[p] := x;
      stores := done + [(p, x)];
    }

    /** Store a payload. Refused only when it fits in no hole and not above the high-water mark. */
    method Insert(len: nat, payload: seq<nat>) returns (r: Option<nat>)
      requires Valid() && |payload| == (len + 3) / 4
      modifies this`byOff, this`bySize, this`hw, this`slots, this`genSeq, this`dead, words
      ensures Valid()
      ensures r.None? ==> unchanged(this) && unchanged(words)
      ensures r.None? <==> words.Length < old(hw) + HDR + |payload| && forall o | o in old(byOff) ::
        old(byOff)[o] < HDR + |payload|
      ensures r.Some? ==>
        && r.value !in old(slots) && r.value in slots && slots == old(slots)[r.value := slots[r.value]]
        && TryRead(words[..], r.value) == Ok(len, payload)
        && SlotsKept(old(words[..]), words[..], old(slots)) && GenFits(r.value)
        && genSeq == old(genSeq) + 2 && r.value + 2 < words.Length && words[r.value + 2] == genSeq
      ensures dead == set o | o in old(dead) && HeaderFree(slots, o)
    {
      hide Canonical, Indexed, RetiredFits, Waiting, Bytes, InMap, Apart, AllDead;
      AllStillDead(dead, slots, words[..]);
      var a := Alloc(HDR + |payload|);
      if a.None? {
        assert words[..] == old(words[..]);
        return None;
      }
      var (o, n) := a.value;
      genSeq := genSeq + 2;
      FillSlot(o, n, len, payload, old(words[..]), old(slots));
      assert RetiredFits(pending, slots) by {
        RetiredStays(pending, old(slots), slots, o);
      }
      dead := set h | h in dead && HeaderFree(slots, h);
      DeadStays(old(dead), old(slots), old(words[..]), slots, words[..]);
      r := Some(o);
    }

    /** Write the slot just taken. */
    method FillSlot(o: nat, n: nat, len: nat, payload: seq<nat>, ghost d: seq<nat>, ghost s: map<nat, nat>)
      requires Tiled() && genSeq % 2 == 0 && |payload| == (len + 3) / 4 && HDR + |payload| <= n
      requires o !in s && slots == s[o := n] && |d| == words.Length
      requires SlotsKept(d, words[..], slots) && StaysUnreadable(d, words[..], slots)
      requires AllHeaded(s, d)
      modifies words
      ensures AllHeaded(slots, words[..]) && TryRead(words[..], o) == Ok(len, payload) && OwnGen(slots, words[..], o)
      ensures o + 2 < words.Length && words[o + 2] == genSeq
      ensures SlotsKept(d, words[..], s) && StaysUnreadable(d, words[..], slots)
      ensures forall p | p in s && p < |d| :: words[p] == d[p]
    {
      hide InMap, Canonical, Indexed, Apart, TryRead, HeaderOk, SlotsKept, StaysUnreadable, Odd, OwnGen;
      ghost var e := words[..];
      SlotEnds(slots, hw, byOff, o);
      ghost var _ := WriteSlot(o, n, len, payload, genSeq);
      ReadsBack(words[..], slots, o, n, len, payload, genSeq);
      SlotWritten(d, e, words[..], s, slots, o, n);
      HeadedSizes(s, d);
      HeadersKept(d, words[..], s);
      HeadedKept(s, d, s, words[..]);
    }

    /** Publish that an offset is not to be read any more. */
    method MarkUnreadable(off: nat)
      requires off + HDR <= words.Length || (off < words.Length && !HasGen(words[off]))
      modifies words
      ensures words[..] == if HasGen(old(words[off])) then old(words[..])[off + 2 := HOLE_GEN] else old(words[..])
    {
      if HasGen(words[off]) {
        words[off + 2] := HOLE_GEN;
      }
    }

    /** Whether the generation word of a slot is its own. */
    ghost predicate GenFits(o: nat)
      reads this`slots, words
    {
      OwnGen(slots, words[..], o)
    }

    /**
     Free a slot that no cell ever named. The others are as they were unless it is a slot of two words with the
     generation flag right before another one.
     */
    method FreeSlot(off: nat)
      requires Valid() && off in slots && InRange(words[..], {off})
      requires forall i | 0 <= i < |pending| :: pending[i].1 != off
      modifies this`byOff, this`bySize, this`hw, this`slots, this`dead, words
      ensures Tiled() && slots == old(slots) - {off}
      ensures SlotsKept(old(words[..]), words[..], slots) <==> !Harms(old(slots), old(words[..]), {off})
      ensures Valid() <==> !Harms(old(slots), old(words[..]), {off})
      ensures dead == old(dead) + WithGen(old(slots), old(words[..]), {off})
    {
      hide Canonical, Indexed, Waiting, Bytes, SlotsKept, StaysUnreadable, HeaderFree, Unreadable, AllDead, Odd, Harms,
        MarkedBy, AllHeaded, InRange;
      ghost var d := words[..];
      FreeNow(off);
      HarmsWhen(old(slots), old(hw), old(byOff), d, words[..], slots, {off});
      OthersStay(pending, epoch, 0, old(slots), slots, {off});
      assert pending[0..] == pending;
      dead := dead + WithGen(old(slots), d, {off});
      DeadGrows(old(dead), old(slots), d, slots, words[..], {off}, dead);
    }

    /** Mark a slot and put it in the free list. */
    method FreeNow(off: nat)
      requires Tiled() && Headed() && off in slots && InRange(words[..], {off})
      modifies this`byOff, this`bySize, this`hw, this`slots, words
      ensures Tiled() && slots == old(slots) - {off}
      ensures SlotsKept(MarkedBy(old(words[..]), {off}), words[..], slots)
      ensures StaysUnreadable(old(words[..]), words[..], slots)
      ensures forall o | o in WithGen(old(slots), old(words[..]), {off}) ::
        Unreadable(words[..], o) && HeaderFree(slots, o)
    {
      hide InMap, EdgesOk, WordsOk, SlotsOk, Free, Apart, MarkedBy, Odd, HeaderFree, Unreadable;
      SlotEnds(slots, hw, byOff, off);
      BlockOne(slots, hw, byOff, off);
      ghost var d, s := words[..], slots;
      var size := words[off] / 4;
      OneMarked(d, off);
      MarkUnreadable(off);
      ghost var e := words[..];
      InsertHole(off, size);
      forall o | o in WithGen(s, d, {off}) ensures Unreadable(words[..], o) && HeaderFree(slots, o) {
        MarkedHeader(d, {off}, o);
        FreedHeader(s, hw, slots, off);
      }
      StaysFurther(d, {off}, e, words[..], slots);
    }

    /** Give back a slot no cell points at any more, to be freed once that is on disk. Returns the bytes waiting. */
    method Retire(off: nat) returns (waiting: nat)
      requires Valid() && off in slots && forall i | 0 <= i < |pending| :: pending[i].1 != off
      modifies this`pending, this`bytes
      ensures Valid() && pending == old(pending) + [(epoch, off, words[off] - words[off] % 2)]
      ensures waiting == bytes == old(bytes) + words[off] - words[off] % 2
    {
      hide Canonical, Indexed, Bytes;
      var size := words[off] - words[off] % 2;
      assert size / 4 == slots[off];
      BytesMore(pending, (epoch, off, size));
      pending := pending + [(epoch, off, size)];
      bytes := bytes + size;
      waiting := bytes;
    }

    /** A write-out of the body begins. */
    method DurableBegin() returns (token: nat)
      requires Valid()
      modifies this`epoch
      ensures Valid() && token == old(epoch) && epoch == token + 1
    {
      hide Canonical, Indexed, Bytes;
      token := epoch;
      epoch := epoch + 1;
    }

    /** Mark the offsets about to be freed, in order: a mark on one may give the next one the generation flag. */
    method MarkAll(offs: seq<nat>)
      requires Ascending(offs) && InRange(words[..], Members(offs))
      modifies words
      ensures words[..] == MarkedBy(old(words[..]), Members(offs))
    {
      hide Odd, MarkedSome;
      ghost var d, all, seen: set<nat> := words[..], Members(offs), {};
      NoneMarked(d, all);
      for k := 0 to |offs|
        invariant seen == (set j | 0 <= j < k :: offs[j]) && words[..] == MarkedSome(d, all, seen)
      {
        OneMore(d, all, seen, offs[k]);
        MarkUnreadable(offs[k]);
        seen := seen + {offs[k]};
      }
      assert seen == all;
    }

    /** Join slots that are next to each other, so that each run is put back once. */
    method RunsOf(offs: seq<nat>, sizes: map<nat, nat>) returns (runs: seq<(nat, nat)>)
      requires Tiled() && Ascending(offs)
      requires forall o | o in offs :: o in slots && o in sizes && sizes[o] / 4 == slots[o]
      ensures RunsAre(slots, runs) && forall o | o in slots :: InRuns(runs, o) <==> o in offs
    {
      hide Canonical, Indexed, InRuns, RunsAre, Block;
      runs := [];
      ghost var seen: set<nat> := {};
      NoRuns(slots);
      for k := 0 to |offs|
        invariant seen == (set j | 0 <= j < k :: offs[j])
        invariant RunsAre(slots, runs) && InRunsExactly(slots, runs, seen)
        invariant runs != [] ==> k > 0 && runs[|runs| - 1].0 + runs[|runs| - 1].1 == offs[k - 1] + slots[offs[k - 1]]
      {
        var off, n := offs[k], sizes[offs[k]] / 4;
        if k > 0 {
          NextSlot(slots, hw, byOff, offs[k - 1], off);
        }
        if runs != [] && runs[|runs| - 1].0 + runs[|runs| - 1].1 == off {
          RunExtended(slots, hw, byOff, runs, seen, off);
          runs := runs[..|runs| - 1] + [(runs[|runs| - 1].0, runs[|runs| - 1].1 + n)];
        } else {
          RunAdded(slots, hw, byOff, runs, seen, off);
          runs := runs + [(off, n)];
        }
        seen := seen + {off};
      }
      assert forall o :: o in seen <==> o in offs;
    }

    /** Put runs back, one by one. */
    method FreeRuns(runs: seq<(nat, nat)>)
      requires Tiled() && RunsAre(slots, runs)
      modifies this`byOff, this`bySize, this`hw, this`slots, words
      ensures Tiled() && slots == NotIn(old(slots), runs)
      ensures SlotsKept(old(words[..]), words[..], slots) && MarksStay(old(words[..]), words[..], old(slots))
    {
      hide Canonical, Indexed, Block, Left, RunsAre, SlotsKept, StaysUnreadable, MarksStay, NotIn, Apart;
      ghost var s0, d := slots, words[..];
      NoneFreed(s0, runs, d);
      SlotsApart(s0, hw, byOff);
      for k := 0 to |runs|
        invariant Tiled() && Left(s0, runs, k, slots)
        invariant SlotsKept(d, words[..], slots) && MarksStay(d, words[..], s0)
      {
        ghost var s1, e := slots, words[..];
        NextRun(s0, runs, k, slots);
        InsertHole(runs[k].0, runs[k].1);
        LeftIsSome(s0, runs, k, s1);
        KeptFurther(d, e, words[..], s0, s1, slots);
      }
      AllFreed(s0, runs, slots);
    }

    /** Free slots whose cells are known to have moved on disk: in offset order, neighbours joined first. */
    method FreeRetired(done: seq<(nat, nat)>)
      requires Tiled() && Headed() && InRange(words[..], Offsets(done))
      requires forall j | 0 <= j < |done| :: done[j].0 in slots && done[j].1 / 4 == slots[done[j].0]
      requires forall i, j | 0 <= i < j < |done| :: done[i].0 != done[j].0
      modifies this`byOff, this`bySize, this`hw, this`slots, words
      ensures Tiled() && slots == old(slots) - Offsets(done)
      ensures SlotsKept(old(words[..]), words[..], slots) <==> !Harms(old(slots), old(words[..]), Offsets(done))
      ensures Headed() <==> !Harms(old(slots), old(words[..]), Offsets(done))
      ensures MarksStay(old(words[..]), words[..], old(slots))
      ensures forall o | o in WithGen(old(slots), old(words[..]), Offsets(done)) :: Unreadable(words[..], o)
    {
      hide Canonical, Indexed, RunsAre, SlotsKept, MarksStay, Unreadable, InRuns, NotIn, MarkedBy, InRange, AllHeaded,
        Harms, WithGen, Odd;
      ghost var s0, d := slots, words[..];
      var offs, sizes := InOrder(done, slots);
      MarkAll(offs);
      ghost var e := words[..];
      var runs := RunsOf(offs, sizes);
      assert NotIn(s0, runs) == s0 - Offsets(done) by {
        NotInIs(s0, runs, Offsets(done));
      }
      SlotsApart(s0, hw, byOff);
      FreeRuns(runs);
      HarmsWhen(s0, old(hw), old(byOff), d, words[..], slots, Offsets(done));
      BatchFreed(s0, d, e, words[..], Offsets(done));
    }

    /** What `FreeRetired` stands for: the same slots freed one at a time, in the order given. */
    method FreeEach(offs: seq<nat>)
      requires Tiled() && Headed() && (forall o | o in offs :: o in slots && InRange(words[..], {o}))
      requires forall i, j | 0 <= i < j < |offs| :: offs[i] != offs[j]
      requires forall k | 0 <= k < |offs| && HarmsOne(slots, words[..], offs[k]) :: offs[k] + 2 in offs[..k]
      modifies this`byOff, this`bySize, this`hw, this`slots, words
      ensures Tiled() && Headed() && slots == old(slots) - Members(offs) && SlotsKept(old(words[..]), words[..], slots)
    {
      hide Canonical, Indexed, SlotsKept, StaysUnreadable, Unreadable, HeaderFree, Odd, AllHeaded, Harms, MarkedBy,
        WithGen, InRange, HarmsOne, Apart, InMap;
      ghost var s0, d0 := slots, words[..];
      SlotsApart(slots, hw, byOff);
      AllKept(d0, s0);
      for k := 0 to |offs|
        invariant Tiled() && Headed() && slots == s0 - Members(offs[..k]) && SlotsKept(d0, words[..], slots)
      {
        ghost var s, h, m, d := slots, hw, byOff, words[..];
        NextHarmless(s0, d0, s, d, offs, k);
        FreeNow(offs[k]);
        HarmsWhen(s, h, m, d, words[..], slots, {offs[k]});
        KeptTwice(d0, d, words[..], s, slots);
        assert Members(offs[..k + 1]) == Members(offs[..k]) + {offs[k]};
      }
      assert offs[..|offs|] == offs;
    }

    /** Take from the queue what was retired at `token` or before. */
    method TakeDue(token: nat) returns (done: seq<(nat, nat)>)
      requires bytes == Bytes(pending)
      modifies this`pending, this`bytes
      ensures pending == old(pending)[DueCount(old(pending), token)..] && bytes == Bytes(pending)
      ensures |done| == DueCount(old(pending), token)
        && forall j | 0 <= j < |done| :: done[j] == (old(pending)[j].1, old(pending)[j].2)
    {
      var n := DueCount(pending, token);
      done := [];
      for i := 0 to n
        modifies this`bytes
        invariant bytes == Bytes(pending[i..]) && |done| == i
        invariant forall j | 0 <= j < i :: done[j] == (pending[j].1, pending[j].2)
      {
        bytes := bytes - pending[i].2;
        done := done + [(pending[i].1, pending[i].2)];
      }
      pending := pending[n..];
    }

    /**
     The write-out that began with `token` has succeeded: free what was retired before it began. The slots left are as
     they were unless a freed slot of two words with the generation flag is right before one of them.
     */
    method DurableEnd(token: nat)
      requires Valid() && InRange(words[..], Due(pending, token))
      modifies this`pending, this`bytes, this`byOff, this`bySize, this`hw, this`slots, this`dead, words
      ensures Tiled() && pending == old(pending)[DueCount(old(pending), token)..]
      ensures slots == old(slots) - Due(old(pending), token)
      ensures SlotsKept(old(words[..]), words[..], slots) <==>
        !Harms(old(slots), old(words[..]), Due(old(pending), token))
      ensures Valid() <==> !Harms(old(slots), old(words[..]), Due(old(pending), token))
      ensures dead == old(dead) + WithGen(old(slots), old(words[..]), Due(old(pending), token))
    {
      hide Canonical, Indexed, SlotsKept, MarksStay, Unreadable, Bytes, RetiredFits, HeaderFree, AllDead, Odd, Waiting,
        Due, Apart, InRange, Harms, WithGen, AllHeaded;
      ghost var d, p := words[..], pending;
      var done := TakeDue(token);
      assert words[..] == d;
      DueExactly(p, epoch, token, slots, done);
      SlotsApart(slots, hw, byOff);
      FreeRetired(done);
      OthersStay(p, epoch, |done|, old(slots), slots, Offsets(done));
      dead := dead + WithGen(old(slots), d, Offsets(done));
      DeadBatch(old(dead), old(slots), d, slots, words[..], Offsets(done), dead);
    }

    // ---- Rebuilding at open ----

    /** A gap found while rebuilding: a hole, or the room above the last slot. */
    method FlushRun(off: nat, size: nat, top: nat)
      requires Indexed(byOff, bySize) && 0 < size && off + size <= top <= words.Length
      modifies this`byOff, this`bySize, this`hw, words
      ensures Indexed(byOff, bySize)
      ensures off + size == top ==> hw == off && byOff == old(byOff) && words[..] == old(words[..])
      ensures off + size < top ==> hw == old(hw) && byOff == old(byOff)[off := size]
      ensures forall w | 0 <= w < words.Length && !(off <= w < off + size) :: words[w] == old(words[w])
    {
      if off + size == top {
        hw := off;
      } else {
        WriteHoleHeader(off, size);
        assert forall w | 0 <= w < words.Length && !(off <= w < off + size) :: words[..][w] == old(words[..])[w];
        HolesInsert(off, size);
      }
    }

    /** A live slot that can be kept, the first word after the last one kept being `cur`. */
    method KeepSlot(a: nat, n: nat, cur: nat, top: nat)
      requires Canonical(slots, cur, byOff) && Indexed(byOff, bySize) && cur <= a && 0 < n
      requires a + n <= top <= words.Length
      modifies this`byOff, this`bySize, this`hw, this`slots, words
      ensures a !in old(slots) && slots == old(slots)[a := n] && hw == old(hw)
      ensures Canonical(slots, a + n, byOff) && Indexed(byOff, bySize)
      ensures forall w | 0 <= w < words.Length && !(cur <= w < a) :: words[w] == old(words[w])
    {
      hide Canonical, Indexed;
      if a > cur {
        SkipKeeps(slots, cur, byOff, a, n);
        FlushRun(cur, a - cur, top);
      } else {
        GrowKeeps(slots, cur, byOff, n);
      }
      slots := slots[a := n];
    }

    /** Look at one live offset; `limit` is the next one, or the high-water mark. */
    method RebuildOne(a: nat, limit: nat, cur: nat) returns (kept: bool, next: nat)
      requires Canonical(slots, cur, byOff) && Indexed(byOff, bySize) && hw <= words.Length
      requires (START <= a < hw ==> cur <= a) && limit <= hw
      modifies this`byOff, this`bySize, this`hw, this`slots, words
      ensures kept <==> START <= a < hw && Looks(old(words[..]), a) && a + old(words[a]) / 4 <= limit
      ensures hw == old(hw) && Canonical(slots, next, byOff) && Indexed(byOff, bySize)
      ensures kept ==> a !in old(slots) && slots == old(slots)[a := old(words[a]) / 4] && next == a + old(words[a]) / 4
      ensures !kept ==> slots == old(slots) && next == cur
      ensures Untouched(old(words[..]), words[..], next, slots)
    {
      hide Canonical, Indexed, Odd, InMap;
      kept, next := false, cur;
      if a < START || a >= hw {
        return;
      }
      var raw := words[a];
      var freed := HasGen(raw) && a + HDR <= words.Length && Odd(words[a + 2]);
      if raw / 4 >= MIN_SLOT && a + raw / 4 <= limit && !freed {
        WordsBelow(slots, cur, byOff, a, raw / 4, slots[a := raw / 4]);
        KeepSlot(a, raw / 4, cur, hw);
        kept, next := true, a + raw / 4;
      }
    }

    /**
     Build the free list from the offsets the cells name, in any order. Returns those to be taken out of their cells.
     */
    method RebuildFreeList(live: seq<nat>) returns (broken: set<nat>)
      requires START <= hw <= words.Length
      modifies this`byOff, this`bySize, this`hw, this`slots, this`dead, words
      ensures Tiled() && Headed() && hw <= old(hw) && dead == {}
      ensures slots == Sound(old(words[..]), old(hw), Members(live), Members(live))
      ensures broken == Members(live) - slots.Keys
      ensures SlotsKept(old(words[..]), words[..], slots)
      ensures pending == [] && bytes == 0 && genSeq % 2 == 0 ==> Valid()
      ensures old(Tiled() && Headed()) && Rereads(old(slots), old(words[..]), Members(live)) ==>
        hw == old(hw) && byOff == old(byOff) && slots == old(slots)
    {
      hide Canonical, Indexed, Ascending, InMap, Survives, Looks, Untouched, Rebuilt, Sound, AllHeaded, Rereads;
      byOff, bySize, slots, broken := map[], {}, map[], {};
      ghost var d, top, all := words[..], hw, Members(live);
      var offs := Sorted(set a: nat | a in live);
      assert Members(offs) == all;
      var cur := START;
      NothingYet(d, top, offs);
      for i := 0 to |offs|
        invariant START <= cur <= top == hw && Canonical(slots, cur, byOff) && Indexed(byOff, bySize)
        invariant Rebuilt(d, top, offs, i, slots, broken, cur) && Untouched(d, words[..], cur, slots)
      {
        var a := offs[i];
        var limit := if i + 1 < |offs| && offs[i + 1] < hw then offs[i + 1] else hw;
        ghost var e, s := words[..], slots;
        StillUntouched(d, e, cur, s, a);
        RebuiltMore(d, top, offs, i, s, broken, cur, limit);
        var kept, next := RebuildOne(a, limit, cur);
        if !kept {
          broken := broken + {a};
        }
        UntouchedMore(d, e, words[..], cur, next, s, slots, a);
        cur := next;
      }
      ghost var e := words[..];
      AllRebuilt(d, top, offs, slots, broken, cur, e);
      if cur < hw {
        FlushRun(cur, hw - cur, hw);
      }
      assert words[..] == e;
      dead := {};
      RebuildSame(old(slots), top, old(byOff), d, all, hw, byOff);
    }
  }

  /** Writing a hole's header touches no slot and makes no unreadable header readable. */
  lemma HoleHeaderHarmless(d: seq<nat>, e: seq<nat>, slots: map<nat, nat>, hw: nat, holes: map<nat, nat>, o: nat)
    requires Canonical(slots, hw, holes) && o in holes && hw <= |d|
    requires holes[o] >= MIN_HOLE ==> o + 2 < |d| && e == d[o := 4 * holes[o] + 1][o + 2 := HOLE_GEN]
    requires holes[o] < MIN_HOLE ==> o < |d| && e == d[o := 4 * holes[o]]
    ensures SlotsKept(d, e, slots)
    ensures StaysUnreadable(d, e, slots)
  {
    hide InMap, Canonical, Odd;
    HoleWordsAreOdd(holes[o]);
    HoleFacts(slots, hw, holes, o);
    forall h: nat | Unreadable(d, h) && HeaderFree(slots, h) ensures Unreadable(e, h) {
      if holes[o] < MIN_HOLE {
        SmallHoleElsewhere(slots, hw, o, holes[o], h);
      } else {
        OddWrites(d, e, o, 4 * holes[o] + 1, o + 2, HOLE_GEN, h);
      }
    }
  }

  lemma HoleFacts(slots: map<nat, nat>, hw: nat, holes: map<nat, nat>, o: nat)
    requires Canonical(slots, hw, holes) && o in holes
    ensures START <= o < o + holes[o] < hw
    ensures forall w: int | o <= w < o + holes[o] :: !InMap(slots, w)
    ensures InMap(slots, o + holes[o]) && (START < o ==> InMap(slots, o - 1))
  {
    hide InMap;
    RunOf(slots, hw, holes, o);
    var last: int := o + holes[o] - 1;
    assert Free(slots, hw, last);
    forall w: int | o <= w < o + holes[o] ensures !InMap(slots, w) {
      assert Free(slots, hw, w);
    }
  }

  lemma HoleWordsAreOdd(n: nat)
    ensures Odd(4 * n + 1) && Odd(HOLE_GEN)
  {
    assert (4 * n) % 2 == 0;
  }

  /** Writing odd words makes no unreadable header readable. */
  lemma OddWrites(d: seq<nat>, e: seq<nat>, p: nat, x: nat, q: nat, y: nat, h: nat)
    requires p < |d| && q < |d| && Odd(x) && Odd(y) && e == d[p := x][q := y] && Unreadable(d, h)
    ensures Unreadable(e, h)
  {
    hide Odd;
  }

  /** A header in free space does not start or end in a hole too small for one. */
  lemma SmallHoleElsewhere(slots: map<nat, nat>, hw: nat, o: nat, n: nat, h: nat)
    requires START <= o && 0 < n < MIN_HOLE && HeaderFree(slots, h)
    requires InMap(slots, o + n) && (START < o ==> InMap(slots, o - 1))
    ensures h != o && h + 2 != o
  {
    hide InMap;
  }

  lemma TopOfHole(slots: map<nat, nat>, hw: nat, holes: map<nat, nat>, o: nat)
    requires Canonical(slots, hw, holes) && o in holes
    ensures o + holes[o] <= hw
  {
    hide InMap;
    RunOf(slots, hw, holes, o);
  }

  lemma HighWaterNoHole(slots: map<nat, nat>, hw: nat, holes: map<nat, nat>)
    requires Canonical(slots, hw, holes)
    ensures hw !in holes
  {
    hide InMap;
    if hw in holes {
      RunOf(slots, hw, holes, hw);
    }
  }

  lemma SlotEnds(slots: map<nat, nat>, hw: nat, holes: map<nat, nat>, o: nat)
    requires Canonical(slots, hw, holes) && o in slots
    ensures START <= o < o + slots[o] <= hw && Apart(slots)
  {
    hide InMap;
  }

  /** A slot just written reads back. */
  ghost function PayloadStores(o: nat, payload: seq<nat>): seq<(nat, nat)> {
    if payload == [] then []
    else
      var n := |payload| - 1;
      PayloadStores(o, payload[..n]) + [(o + HDR + n, payload[n])]
  }

  /** The stores of an insert in their order: size, odd generation, length, payload, even generation. */
  ghost function SlotStores(o: nat, n: nat, len: nat, payload: seq<nat>, gen: nat): seq<(nat, nat)> {
    [(o, 4 * n + 1), (o + 2, gen + 1), (o + 1, len)] + PayloadStores(o, payload) + [(o + 2, gen)]
  }

  lemma {:induction false} PayloadStoreAt(o: nat, payload: seq<nat>, i: nat)
    requires i < |payload|
    ensures |PayloadStores(o, payload)| == |payload| && PayloadStores(o, payload)[i] == (o + HDR + i, payload[i])
  {
    var n := |payload| - 1;
    if n > 0 {
      PayloadStoreAt(o, payload[..n], if i < n then i else 0);
    }
  }

  lemma ReadsBack(e: seq<nat>, slots: map<nat, nat>, o: nat, n: nat, len: nat, payload: seq<nat>, gen: nat)
    requires o + HDR + |payload| <= o + n <= |e| && |payload| == (len + 3) / 4 && gen % 2 == 0 && o in slots
    requires slots[o] == n
    requires e[o] == 4 * n + 1 && e[o + 1] == len && e[o + 2] == gen && e[o + HDR..o + HDR + |payload|] == payload
    ensures TryRead(e, o) == Ok(len, payload) && HeaderOk(e, o, n) && OwnGen(slots, e, o)
  {
    HoleWordsAreOdd(n);
    assert !Odd(gen);
    hide Odd;
    assert len + 12 <= 4 * n;
  }

  /** Writing inside a new slot changes no other slot and no free header. */
  lemma SlotWritten(d: seq<nat>, e: seq<nat>, f: seq<nat>, s: map<nat, nat>, t: map<nat, nat>, o: nat, n: nat)
    requires |d| == |e| == |f| && o !in s && t == s[o := n] && Apart(t)
    requires SlotsKept(d, e, t) && StaysUnreadable(d, e, t)
    requires forall w | 0 <= w < |f| && !(o <= w < o + n) :: f[w] == e[w]
    ensures SlotsKept(d, f, s) && StaysUnreadable(d, f, t)
  {
    WordsWith(s, o, n, t);
    forall w | 0 <= w < |d| && InMap(s, w) ensures f[w] == d[w] {
      var p :| p in s && p <= w < p + s[p];
      assert p in t && o in t;
    }
    hide InMap;
    forall h: nat | Unreadable(d, h) && HeaderFree(t, h) ensures Unreadable(f, h) {
      assert Unreadable(e, h);
      var third: nat := h + 2;
      assert !InMap(t, h) && !InMap(t, third);
    }
  }

  lemma HeadersKept(d: seq<nat>, e: seq<nat>, s: map<nat, nat>)
    requires SlotsKept(d, e, s)
    ensures forall o | o in s && 0 < s[o] && o < |d| :: e[o] == d[o]
  {
    forall o | o in s && 0 < s[o] && o < |d| ensures e[o] == d[o] {
      Covers(s, o, o);
    }
  }

  lemma HeadedSizes(s: map<nat, nat>, d: seq<nat>)
    requires AllHeaded(s, d)
    ensures forall o | o in s :: 0 < s[o] && o < |d|
  {
    forall o | o in s ensures 0 < s[o] && o < |d| {
      assert HeaderOk(d, o, s[o]);
    }
  }

  lemma HeadedKept(s: map<nat, nat>, d: seq<nat>, t: map<nat, nat>, e: seq<nat>)
    requires AllHeaded(s, d) && SlotsKept(d, e, t) && forall o | o in t :: o in s && t[o] == s[o]
    ensures AllHeaded(t, e)
  {
    hide Odd, InMap;
    forall o | o in t ensures HeaderOk(e, o, t[o]) {
      assert HeaderOk(d, o, s[o]);
      Covers(t, o, o);
      if HDR <= t[o] {
        Covers(t, o, o + 2);
      }
    }
  }

  lemma BlockOne(slots: map<nat, nat>, hw: nat, holes: map<nat, nat>, off: nat)
    requires Canonical(slots, hw, holes) && off in slots
    ensures Block(slots, off, slots[off]) && Outside(slots, off, slots[off]) == slots - {off}
  {
    forall w | off <= w < off + slots[off] ensures InMap(slots, w) {
      Covers(slots, off, w);
    }
  }

  /** The words of a freed slot are in none of the slots left. */
  lemma FreedHeader(slots: map<nat, nat>, hw: nat, rest: map<nat, nat>, off: nat)
    requires off in slots && HDR <= slots[off] && START <= off && Apart(slots) && rest == slots - {off}
    ensures HeaderFree(rest, off)
  {
    WordsWithout(slots, off, rest);
  }

  lemma {:induction false} BytesMore(p: seq<(nat, nat, nat)>, x: (nat, nat, nat))
    ensures Bytes(p + [x]) == Bytes(p) + x.2
  {
    if p != [] {
      BytesMore(p[1..], x);
      assert (p + [x])[1..] == p[1..] + [x];
    }
  }

  // ---- Batches ----

  ghost function Offsets(done: seq<(nat, nat)>): set<nat> {
    set x | x in done :: x.0
  }

  /** The offsets to free, in order, with their sizes. */
  method InOrder(done: seq<(nat, nat)>, ghost slots: map<nat, nat>) returns (offs: seq<nat>, sizes: map<nat, nat>)
    requires forall j | 0 <= j < |done| :: done[j].0 in slots && done[j].1 / 4 == slots[done[j].0]
    requires forall i, j | 0 <= i < j < |done| :: done[i].0 != done[j].0
    ensures Ascending(offs) && Members(offs) == Offsets(done)
    ensures forall o | o in offs :: o in slots && o in sizes && sizes[o] / 4 == slots[o]
  {
    hide Ascending;
    offs := Sorted(set x: (nat, nat) | x in done :: x.0);
    sizes := map x: (nat, nat) | x in done :: x.0 := x.1;
    forall o | o in offs ensures o in slots && o in sizes && sizes[o] / 4 == slots[o] {
      var j :| 0 <= j < |done| && done[j].0 == o;
      assert done[j] in done;
    }
  }

  /** The slots retired at `token` or before. */
  ghost function Due(pending: seq<(nat, nat, nat)>, token: nat): set<nat> {
    set x | x in pending && x.0 <= token :: x.1
  }

  /** How many of the retired slots a write-out with this token frees. */
  function DueCount(pending: seq<(nat, nat, nat)>, token: nat): (n: nat)
    ensures n <= |pending| && (forall i | 0 <= i < n :: pending[i].0 <= token)
    ensures n < |pending| ==> token < pending[n].0
  {
    if pending == [] || token < pending[0].0 then 0 else 1 + DueCount(pending[1..], token)
  }

  // ---- Marking the slots to free ----

  /**
   Whether the third word at `o` is marked when `offs` are: its size word has the generation flag, or got it when the
   offset two words before it was marked.
   */
  ghost predicate Marks(d: seq<nat>, offs: set<nat>, o: nat) {
    o < |d| && (HasGen(d[o]) || (o >= 2 && o - 2 in offs && Marks(d, offs, o - 2)))
  }

  ghost function MarkedSome(d: seq<nat>, offs: set<nat>, some: set<nat>): seq<nat> {
    seq(|d|, w requires 0 <= w < |d| => if w >= 2 && w - 2 in some && Marks(d, offs, w - 2) then HOLE_GEN else d[w])
  }

  /** The words once `offs` are marked. */
  ghost function MarkedBy(d: seq<nat>, offs: set<nat>): seq<nat> {
    MarkedSome(d, offs, offs)
  }

  /** Marking `offs` writes no word past the region. */
  ghost predicate InRange(d: seq<nat>, offs: set<nat>) {
    forall o | o in offs :: o < |d| && (Marks(d, offs, o) ==> o + HDR <= |d|)
  }

  /** The slots of `offs` that have a generation of their own. */
  ghost function WithGen(slots: map<nat, nat>, d: seq<nat>, offs: set<nat>): set<nat> {
    set o | o in offs && o < |d| && HasGen(d[o]) && o in slots && HDR <= slots[o]
  }

  /** Marking `offs` overwrites the size word of a slot that is not one of them. */
  ghost predicate Harms(slots: map<nat, nat>, d: seq<nat>, offs: set<nat>) {
    exists o :: o in offs && Marks(d, offs, o) && o in slots && slots[o] == MIN_SLOT && o + 2 in slots && o + 2 !in offs
  }

  /** A slot of two words that has the generation flag and is right before another slot. */
  ghost predicate HarmsOne(slots: map<nat, nat>, d: seq<nat>, o: nat) {
    o in slots && o < |d| && HasGen(d[o]) && slots[o] == MIN_SLOT && o + 2 in slots
  }

  lemma OneHarms(slots: map<nat, nat>, d: seq<nat>, o: nat)
    ensures Harms(slots, d, {o}) <==> HarmsOne(slots, d, o)
  {
    hide Odd;
    assert Marks(d, {o}, o) <==> o < |d| && HasGen(d[o]);
  }

  lemma OneMarked(d: seq<nat>, o: nat)
    requires InRange(d, {o})
    ensures MarkedBy(d, {o}) == if HasGen(d[o]) then d[o + 2 := HOLE_GEN] else d
    ensures o + HDR <= |d| || !HasGen(d[o])
  {
    hide Odd;
    assert Marks(d, {o}, o) <==> HasGen(d[o]);
  }

  lemma NoneMarked(d: seq<nat>, offs: set<nat>)
    ensures MarkedSome(d, offs, {}) == d
  {
  }

  /** The next offset is marked exactly if its size word, as it is by then, has the generation flag. */
  lemma OneMore(d: seq<nat>, offs: set<nat>, seen: set<nat>, o: nat)
    requires InRange(d, offs) && o in offs && o !in seen && seen <= offs && forall p | p in offs && p < o :: p in seen
    ensures var e := MarkedSome(d, offs, seen);
      && |e| == |d| && o < |e| && (HasGen(e[o]) <==> Marks(d, offs, o)) && (HasGen(e[o]) ==> o + HDR <= |e|)
      && MarkedSome(d, offs, seen + {o}) == if HasGen(e[o]) then e[o + 2 := HOLE_GEN] else e
  {
    HoleWordsAreOdd(0);
    hide Odd;
    var e := MarkedSome(d, offs, seen);
    assert e[o] == if o >= 2 && o - 2 in offs && Marks(d, offs, o - 2) then HOLE_GEN else d[o];
  }

  /** Marks are odd, so what was unreadable stays so. */
  lemma MarkingKeeps(d: seq<nat>, offs: set<nat>, h: nat)
    requires Unreadable(d, h)
    ensures Unreadable(MarkedBy(d, offs), h)
  {
    HoleWordsAreOdd(0);
    hide Odd;
  }

  lemma MarkedHeader(d: seq<nat>, offs: set<nat>, o: nat)
    requires InRange(d, offs) && o in offs && HasGen(d[o])
    ensures Unreadable(MarkedBy(d, offs), o)
  {
    HoleWordsAreOdd(0);
    hide Odd;
  }

  lemma StaysFurther(d: seq<nat>, offs: set<nat>, e: seq<nat>, f: seq<nat>, t: map<nat, nat>)
    requires e == MarkedBy(d, offs) && StaysUnreadable(e, f, t)
    ensures StaysUnreadable(d, f, t)
  {
    hide Unreadable, HeaderFree, MarkedBy;
    forall h: nat | Unreadable(d, h) && HeaderFree(t, h) ensures Unreadable(f, h) {
      MarkingKeeps(d, offs, h);
    }
  }

  /** A word that is marked and is in one of the slots left is the size word of a slot. */
  lemma MarkedWord(slots: map<nat, nat>, d: seq<nat>, offs: set<nat>, w: nat)
    requires Apart(slots) && AllHeaded(slots, d) && offs <= slots.Keys && InMap(slots - offs, w)
    requires w >= 2 && w - 2 in offs && Marks(d, offs, w - 2)
    ensures Harms(slots, d, offs)
  {
    hide Odd, Marks;
    var o := w - 2;
    var p :| p in slots - offs && p <= w < p + slots[p];
    assert HeaderOk(d, o, slots[o]);
    assert p == o + 2;
  }

  lemma HarmKeeps(slots: map<nat, nat>, d: seq<nat>, offs: set<nat>)
    requires Apart(slots) && AllHeaded(slots, d) && offs <= slots.Keys && !Harms(slots, d, offs)
    ensures SlotsKept(d, MarkedBy(d, offs), slots - offs)
  {
    hide Odd, Marks, InMap, Harms, Apart, AllHeaded;
    var e := MarkedBy(d, offs);
    forall w | 0 <= w < |d| && InMap(slots - offs, w) ensures e[w] == d[w] {
      if w >= 2 && w - 2 in offs && Marks(d, offs, w - 2) {
        MarkedWord(slots, d, offs, w);
      }
    }
  }

  lemma HarmBreaks(slots: map<nat, nat>, d: seq<nat>, offs: set<nat>, f: seq<nat>)
    requires AllHeaded(slots, d) && Harms(slots, d, offs) && SlotsKept(MarkedBy(d, offs), f, slots - offs)
    ensures !SlotsKept(d, f, slots - offs) && !AllHeaded(slots - offs, f)
  {
    hide Odd, Marks;
    var o :| o in offs && Marks(d, offs, o) && o in slots && slots[o] == MIN_SLOT && o + 2 in slots && o + 2 !in offs;
    var p, t := o + 2, slots - offs;
    assert HeaderOk(d, p, slots[p]) && p in t;
    Covers(t, p, p);
    assert MarkedBy(d, offs)[p] == HOLE_GEN;
    assert f[p] == HOLE_GEN && d[p] != HOLE_GEN && !HeaderOk(f, p, t[p]);
  }

  /** Marking and then freeing `offs` leaves the other slots as they were exactly if no mark falls on one of them. */
  lemma HarmsWhen(s: map<nat, nat>, hw: nat, holes: map<nat, nat>, d: seq<nat>, f: seq<nat>, t: map<nat, nat>,
      offs: set<nat>)
    requires Canonical(s, hw, holes) && AllHeaded(s, d) && offs <= s.Keys && t == s - offs
    requires SlotsKept(MarkedBy(d, offs), f, t)
    ensures SlotsKept(d, f, t) <==> !Harms(s, d, offs)
    ensures AllHeaded(t, f) <==> !Harms(s, d, offs)
  {
    SlotsApart(s, hw, holes);
    hide Canonical, Harms, AllHeaded, MarkedBy, Apart, InMap;
    if Harms(s, d, offs) {
      HarmBreaks(s, d, offs, f);
    } else {
      HarmKeeps(s, d, offs);
      KeptTwice(d, MarkedBy(d, offs), f, t, t);
      HeadedKept(s, d, t, f);
    }
  }

  lemma KeptTwice(d: seq<nat>, e: seq<nat>, f: seq<nat>, s: map<nat, nat>, t: map<nat, nat>)
    requires SlotsKept(d, e, s) && SlotsKept(e, f, t) && forall o | o in t :: o in s && t[o] == s[o]
    ensures SlotsKept(d, f, t)
  {
    FewerWords(s, t);
    hide InMap;
  }

  lemma AllKept(d: seq<nat>, s: map<nat, nat>)
    ensures SlotsKept(d, d, s)
  {
  }

  /** Freed one at a time: a slot whose mark would fall on the next one comes after that one. */
  lemma NextHarmless(s0: map<nat, nat>, d0: seq<nat>, s: map<nat, nat>, d: seq<nat>, offs: seq<nat>, k: nat)
    requires k < |offs| && s == s0 - Members(offs[..k]) && SlotsKept(d0, d, s) && (forall o | o in s0 :: 0 < s0[o])
    requires forall i, j | 0 <= i < j < |offs| :: offs[i] != offs[j]
    requires offs[k] in s0 && InRange(d0, {offs[k]}) && (HarmsOne(s0, d0, offs[k]) ==> offs[k] + 2 in offs[..k])
    ensures offs[k] in s && InRange(d, {offs[k]}) && !Harms(s, d, {offs[k]})
  {
    hide Odd;
    var o := offs[k];
    assert o !in offs[..k];
    HeadersKept(d0, d, s);
    OneHarms(s, d, o);
    assert Marks(d0, {o}, o) <==> HasGen(d0[o]);
    assert Marks(d, {o}, o) <==> HasGen(d[o]);
  }

  /** Freed runs of words, each a block of slots, in order. */
  ghost predicate RunsAre(slots: map<nat, nat>, runs: seq<(nat, nat)>) {
    && (forall i | 0 <= i < |runs| :: 0 < runs[i].1 && Block(slots, runs[i].0, runs[i].1))
    && (forall i, j | 0 <= i < j < |runs| :: runs[i].0 + runs[i].1 <= runs[j].0)
  }

  ghost predicate InRuns(runs: seq<(nat, nat)>, o: nat) {
    exists i | 0 <= i < |runs| :: runs[i].0 <= o < runs[i].0 + runs[i].1
  }

  ghost predicate InRunsExactly(slots: map<nat, nat>, runs: seq<(nat, nat)>, offs: set<nat>) {
    forall o | o in slots :: InRuns(runs, o) <==> o in offs
  }

  lemma NoRuns(slots: map<nat, nat>)
    ensures RunsAre(slots, []) && InRunsExactly(slots, [], {})
  {
  }

  lemma NextSlot(slots: map<nat, nat>, hw: nat, holes: map<nat, nat>, o: nat, p: nat)
    requires Canonical(slots, hw, holes) && o in slots && p in slots && o < p
    ensures o + slots[o] <= p
  {
  }

  lemma InRunsMore(runs: seq<(nat, nat)>, x: (nat, nat), o: nat)
    ensures InRuns(runs + [x], o) <==> InRuns(runs, o) || x.0 <= o < x.0 + x.1
  {
    var more := runs + [x];
    if InRuns(runs, o) {
      var i :| 0 <= i < |runs| && runs[i].0 <= o < runs[i].0 + runs[i].1;
      assert more[i] == runs[i];
    }
    if x.0 <= o < x.0 + x.1 {
      assert more[|runs|] == x;
    }
  }

  lemma RunAdded(slots: map<nat, nat>, hw: nat, holes: map<nat, nat>, runs: seq<(nat, nat)>, seen: set<nat>, off: nat)
    requires Canonical(slots, hw, holes) && off in slots && RunsAre(slots, runs) && InRunsExactly(slots, runs, seen)
    requires runs != [] ==> runs[|runs| - 1].0 + runs[|runs| - 1].1 <= off
    ensures RunsAre(slots, runs + [(off, slots[off])]) && InRunsExactly(slots, runs + [(off, slots[off])], seen + {off})
  {
    hide InRuns, InMap, Block;
    BlockOne(slots, hw, holes, off);
    SlotEnds(slots, hw, holes, off);
    forall o | o in slots ensures InRuns(runs + [(off, slots[off])], o) <==> o in seen + {off} {
      InRunsMore(runs, (off, slots[off]), o);
    }
  }

  lemma BlockJoin(slots: map<nat, nat>, a: nat, n: nat, m: nat)
    requires Block(slots, a, n) && Block(slots, a + n, m)
    ensures Block(slots, a, n + m)
  {
    hide InMap;
  }

  lemma RunExtended(slots: map<nat, nat>, hw: nat, holes: map<nat, nat>, runs: seq<(nat, nat)>, seen: set<nat>,
      off: nat)
    requires Canonical(slots, hw, holes) && off in slots && RunsAre(slots, runs) && InRunsExactly(slots, runs, seen)
    requires runs != [] && runs[|runs| - 1].0 + runs[|runs| - 1].1 == off
    ensures var r := runs[..|runs| - 1] + [(runs[|runs| - 1].0, runs[|runs| - 1].1 + slots[off])];
      RunsAre(slots, r) && InRunsExactly(slots, r, seen + {off})
  {
    hide InRuns, InMap, Block;
    var init, last := runs[..|runs| - 1], runs[|runs| - 1];
    BlockOne(slots, hw, holes, off);
    SlotEnds(slots, hw, holes, off);
    BlockJoin(slots, last.0, last.1, slots[off]);
    assert runs == init + [last];
    forall o | o in slots ensures InRuns(init + [(last.0, last.1 + slots[off])], o) <==> o in seen + {off} {
      InRunsMore(init, last, o);
      InRunsMore(init, (last.0, last.1 + slots[off]), o);
    }
  }

  // ---- Freeing runs ----

  ghost function NotIn(slots: map<nat, nat>, runs: seq<(nat, nat)>): map<nat, nat> {
    map o | o in slots && !InRuns(runs, o) :: slots[o]
  }

  /** What is left once the first `k` runs are freed; the others are still blocks. */
  ghost predicate Left(s0: map<nat, nat>, runs: seq<(nat, nat)>, k: nat, slots: map<nat, nat>) {
    k <= |runs| && slots == NotIn(s0, runs[..k]) && RunsAre(slots, runs[k..])
  }

  lemma NoneFreed(s0: map<nat, nat>, runs: seq<(nat, nat)>, d: seq<nat>)
    requires RunsAre(s0, runs)
    ensures Left(s0, runs, 0, s0) && SlotsKept(d, d, s0) && MarksStay(d, d, s0)
  {
    assert runs[0..] == runs;
  }

  lemma NextRun(s0: map<nat, nat>, runs: seq<(nat, nat)>, k: nat, slots: map<nat, nat>)
    requires Left(s0, runs, k, slots) && k < |runs|
    ensures 0 < runs[k].1 && Block(slots, runs[k].0, runs[k].1)
    ensures Left(s0, runs, k + 1, Outside(slots, runs[k].0, runs[k].1))
  {
    hide InMap, InRuns, Block;
    assert runs[k..][0] == runs[k];
    var r, t := runs[k], Outside(slots, runs[k].0, runs[k].1);
    assert runs[..k + 1] == runs[..k] + [r];
    forall o | o in s0 ensures InRuns(runs[..k + 1], o) <==> InRuns(runs[..k], o) || r.0 <= o < r.0 + r.1 {
      InRunsMore(runs[..k], r, o);
    }
    assert t == NotIn(s0, runs[..k + 1]);
    var now, rest := runs[k..], runs[k + 1..];
    assert rest == now[1..];
    forall i | 0 <= i < |rest| ensures 0 < rest[i].1 && Block(t, rest[i].0, rest[i].1) {
      assert rest[i] == now[i + 1];
      BlockStays(slots, r.0, r.1, rest[i].0, rest[i].1, t);
    }
  }

  lemma BlockStays(slots: map<nat, nat>, a: nat, n: nat, b: nat, m: nat, t: map<nat, nat>)
    requires Block(slots, a, n) && Block(slots, b, m) && a + n <= b && t == Outside(slots, a, n)
    ensures Block(t, b, m)
  {
    forall w | b <= w < b + m ensures InMap(t, w) {
      assert InMap(slots, w);
      var o :| o in slots && o <= w < o + slots[o];
      assert o in t;
    }
  }

  lemma AllFreed(s0: map<nat, nat>, runs: seq<(nat, nat)>, slots: map<nat, nat>)
    requires Left(s0, runs, |runs|, slots)
    ensures slots == NotIn(s0, runs)
  {
    assert runs[..|runs|] == runs;
  }

  lemma LeftIsSome(s0: map<nat, nat>, runs: seq<(nat, nat)>, k: nat, slots: map<nat, nat>)
    requires Left(s0, runs, k, slots)
    ensures forall o | o in slots :: o in s0 && slots[o] == s0[o]
  {
  }

  lemma SlotsApart(slots: map<nat, nat>, hw: nat, holes: map<nat, nat>)
    requires Canonical(slots, hw, holes)
    ensures Apart(slots) && forall o | o in slots :: START <= o && 0 < slots[o]
  {
  }

  lemma FewerWords(s: map<nat, nat>, t: map<nat, nat>)
    requires forall o | o in t :: o in s && t[o] == s[o]
    ensures forall w: int {:trigger InMap(t, w)} :: InMap(t, w) ==> InMap(s, w)
  {
  }

  /** A slot not there any more has left its words free. */
  lemma GoneIsFree(s: map<nat, nat>, t: map<nat, nat>, h: nat)
    requires Apart(s) && (forall o | o in t :: o in s && t[o] == s[o]) && HeaderWhole(s, h) && h !in t
    ensures HeaderFree(t, h)
  {
    FewerWords(s, t);
    if h in s && HDR <= s[h] && START <= h {
      forall w | h <= w < h + HDR ensures !InMap(t, w) {
        forall o | o in t ensures !(o <= w < o + t[o]) {
          assert o in s && s[o] == t[o];
        }
      }
    }
  }

  /** Freeing keeps the slots left and the marks. */
  lemma KeptFurther(d: seq<nat>, e: seq<nat>, f: seq<nat>, s0: map<nat, nat>, s: map<nat, nat>, t: map<nat, nat>)
    requires Apart(s0) && (forall o | o in s :: o in s0 && s[o] == s0[o])
    requires forall o | o in t :: o in s && t[o] == s[o]
    requires SlotsKept(d, e, s) && MarksStay(d, e, s0) && SlotsKept(e, f, t) && StaysUnreadable(e, f, t)
    ensures SlotsKept(d, f, t) && MarksStay(d, f, s0)
  {
    FewerWords(s, t);
    forall h: nat | Unreadable(d, h) && HeaderWhole(s0, h) ensures Unreadable(f, h) {
      hide InMap, Apart;
      if h in t && !HeaderFree(s0, h) {
        HeaderCovered(t, h);
      } else {
        if HeaderFree(s0, h) {
          FewerWords(s0, t);
        } else {
          GoneIsFree(s0, t, h);
        }
      }
    }
  }

  lemma HeaderCovered(t: map<nat, nat>, h: nat)
    requires h in t && HDR <= t[h]
    ensures InMap(t, h) && InMap(t, h + 2)
  {
  }

  lemma NotInIs(slots: map<nat, nat>, runs: seq<(nat, nat)>, offs: set<nat>)
    requires forall o | o in slots :: InRuns(runs, o) <==> o in offs
    ensures NotIn(slots, runs) == slots - offs
  {
  }

  /** Marking the slots to free and then freeing them: those with a generation of their own end unreadable. */
  lemma BatchFreed(s: map<nat, nat>, d: seq<nat>, e: seq<nat>, f: seq<nat>, offs: set<nat>)
    requires e == MarkedBy(d, offs) && InRange(d, offs) && MarksStay(e, f, s) && forall o | o in s :: START <= o
    ensures MarksStay(d, f, s)
    ensures forall o | o in WithGen(s, d, offs) :: Unreadable(f, o)
  {
    hide InMap, Odd, Unreadable, HeaderFree, MarkedBy;
    forall h: nat | Unreadable(d, h) && HeaderWhole(s, h) ensures Unreadable(f, h) {
      MarkingKeeps(d, offs, h);
    }
    forall o | o in WithGen(s, d, offs) ensures Unreadable(f, o) {
      MarkedHeader(d, offs, o);
    }
  }

  /** The slots a write-out frees are those retired at its token or before. */
  lemma DueExactly(p: seq<(nat, nat, nat)>, epoch: nat, token: nat, s: map<nat, nat>, done: seq<(nat, nat)>)
    requires Waiting(p, epoch) && RetiredFits(p, s) && |done| == DueCount(p, token)
    requires forall j | 0 <= j < |done| :: done[j] == (p[j].1, p[j].2)
    ensures Offsets(done) == Due(p, token)
    ensures forall j | |done| <= j < |p| :: p[j].1 !in Offsets(done)
    ensures forall j | 0 <= j < |done| :: done[j].0 in s && done[j].1 / 4 == s[done[j].0]
    ensures forall i, j | 0 <= i < j < |done| :: done[i].0 != done[j].0
    ensures Offsets(done) <= s.Keys
  {
    forall x | x in p && x.0 <= token ensures x.1 in Offsets(done) {
      var i :| 0 <= i < |p| && p[i] == x;
      assert i < |done|;
      assert done[i] in done;
    }
    forall o | o in Offsets(done) ensures o in Due(p, token) && o in s {
      var j :| 0 <= j < |done| && done[j].0 == o;
      assert p[j] in p;
    }
  }

  /** The slots still waiting are as they were. */
  lemma OthersStay(p: seq<(nat, nat, nat)>, epoch: nat, n: nat, s: map<nat, nat>, t: map<nat, nat>, offs: set<nat>)
    requires Waiting(p, epoch) && RetiredFits(p, s) && n <= |p| && t == s - offs
    requires forall j | n <= j < |p| :: p[j].1 !in offs
    ensures Waiting(p[n..], epoch) && RetiredFits(p[n..], t)
  {
  }

  // ---- Freed slots ----

  lemma AllStillDead(dead: set<nat>, slots: map<nat, nat>, d: seq<nat>)
    requires AllDead(dead, slots, d)
    ensures dead == set o | o in dead && HeaderFree(slots, o)
  {
  }

  lemma DeadStays(dead: set<nat>, s: map<nat, nat>, d: seq<nat>, t: map<nat, nat>, e: seq<nat>)
    requires AllDead(dead, s, d) && StaysUnreadable(d, e, t)
    ensures AllDead((set o | o in dead && HeaderFree(t, o)), t, e)
  {
    hide HeaderFree, Unreadable;
  }

  lemma FewerIsFree(s: map<nat, nat>, t: map<nat, nat>, h: nat)
    requires HeaderFree(s, h) && forall o | o in t :: o in s && t[o] == s[o]
    ensures HeaderFree(t, h)
  {
    FewerWords(s, t);
  }

  lemma DeadGrows(dead: set<nat>, s: map<nat, nat>, d: seq<nat>, t: map<nat, nat>, e: seq<nat>, offs: set<nat>,
      more: set<nat>)
    requires AllDead(dead, s, d) && t == s - offs && StaysUnreadable(d, e, t)
    requires forall o | o in more && o !in dead :: HeaderFree(t, o) && Unreadable(e, o)
    ensures AllDead(more, t, e)
  {
    hide HeaderFree, Unreadable;
    forall o | o in dead ensures HeaderFree(t, o) {
      FewerIsFree(s, t, o);
    }
  }

  lemma DeadBatch(dead: set<nat>, s: map<nat, nat>, d: seq<nat>, t: map<nat, nat>, e: seq<nat>, offs: set<nat>,
      more: set<nat>)
    requires AllDead(dead, s, d) && t == s - offs && MarksStay(d, e, s) && Apart(s) && forall o | o in s :: START <= o
    requires more == dead + WithGen(s, d, offs) && forall o | o in WithGen(s, d, offs) :: Unreadable(e, o)
    ensures AllDead(more, t, e)
  {
    hide HeaderFree, Unreadable, Odd, Apart;
    forall o | o in more ensures HeaderFree(t, o) && Unreadable(e, o) {
      if o in dead {
        FewerIsFree(s, t, o);
      } else {
        GoneIsFree(s, t, o);
      }
    }
  }

  // ---- Rebuilding ----

  /** A header that can be one of a slot in use. */
  ghost predicate Looks(d: seq<nat>, a: nat) {
    a < |d| && MIN_SLOT <= d[a] / 4 && !(HasGen(d[a]) && a + HDR <= |d| && Odd(d[a + 2]))
  }

  /** A live offset whose slot can be trusted: it reaches neither the next live offset nor over the high-water mark. */
  ghost predicate Survives(d: seq<nat>, hw: nat, live: set<nat>, a: nat) {
    START <= a < hw && Looks(d, a) && a + d[a] / 4 <= hw && forall b | b in live && a < b :: a + d[a] / 4 <= b
  }

  /** The slots of those of `some` that survive. */
  ghost function Sound(d: seq<nat>, hw: nat, live: set<nat>, some: set<nat>): map<nat, nat> {
    map a | a in some && Survives(d, hw, live, a) :: d[a] / 4
  }

  /** From `d` to `e`, nothing changed from `cur` on or in a slot. */
  ghost predicate Untouched(d: seq<nat>, e: seq<nat>, cur: nat, slots: map<nat, nat>) {
    |d| == |e| && forall w | 0 <= w < |d| && (cur <= w || InMap(slots, w)) :: e[w] == d[w]
  }

  /** The first `i` offsets have been looked at, and none of the others is before `cur`. */
  ghost predicate Rebuilt(d: seq<nat>, hw: nat, offs: seq<nat>, i: nat, slots: map<nat, nat>, broken: set<nat>,
      cur: nat) {
    && i <= |offs|
    && slots == Sound(d, hw, Members(offs), Members(offs[..i]))
    && broken == Members(offs[..i]) - slots.Keys
    && forall j | i <= j < |offs| && START <= offs[j] :: cur <= offs[j]
  }

  lemma NothingYet(d: seq<nat>, hw: nat, offs: seq<nat>)
    ensures Canonical(map[], START, map[]) && Indexed(map[], {}) && Untouched(d, d, START, map[])
    ensures Rebuilt(d, hw, offs, 0, map[], {}, START)
  {
  }

  lemma StillUntouched(d: seq<nat>, e: seq<nat>, cur: nat, slots: map<nat, nat>, a: nat)
    requires Untouched(d, e, cur, slots)
    ensures cur <= a < |d| ==> e[a] == d[a]
    ensures cur <= a ==> Looks(e, a) == Looks(d, a)
  {
  }

  lemma UntouchedMore(d: seq<nat>, e: seq<nat>, f: seq<nat>, cur: nat, next: nat, s: map<nat, nat>, t: map<nat, nat>,
      a: nat)
    requires Untouched(d, e, cur, s) && Untouched(e, f, next, t) && cur <= next
    requires t == s || (cur <= a && a !in s && a in t && t == s[a := t[a]])
    ensures Untouched(d, f, next, t)
  {
    if t != s {
      WordsWith(s, a, t[a], t);
    }
  }

  lemma RebuiltMore(d: seq<nat>, hw: nat, offs: seq<nat>, i: nat, slots: map<nat, nat>, broken: set<nat>, cur: nat,
      limit: nat)
    requires Ascending(offs) && i < |offs| && Rebuilt(d, hw, offs, i, slots, broken, cur) && hw <= |d| && START <= cur
    requires limit == if i + 1 < |offs| && offs[i + 1] < hw then offs[i + 1] else hw
    ensures START <= offs[i] ==> cur <= offs[i]
    ensures START <= offs[i] < hw && Looks(d, offs[i]) && offs[i] + d[offs[i]] / 4 <= limit ==>
      Rebuilt(d, hw, offs, i + 1, slots[offs[i] := d[offs[i]] / 4], broken, offs[i] + d[offs[i]] / 4)
    ensures !(START <= offs[i] < hw && Looks(d, offs[i]) && offs[i] + d[offs[i]] / 4 <= limit) ==>
      Rebuilt(d, hw, offs, i + 1, slots, broken + {offs[i]}, cur)
  {
    hide Looks, Survives, Sound;
    LimitIs(d, hw, Members(offs), offs, i, limit);
    assert Members(offs[..i + 1]) == Members(offs[..i]) + {offs[i]};
    SoundMore(d, hw, Members(offs), Members(offs[..i]), offs[i]);
    SoundKeys(d, hw, Members(offs), Members(offs[..i]), offs[i]);
  }

  lemma SoundKeys(d: seq<nat>, hw: nat, live: set<nat>, some: set<nat>, a: nat)
    ensures Sound(d, hw, live, some).Keys <= some
  {
  }

  lemma AllRebuilt(d: seq<nat>, hw: nat, offs: seq<nat>, slots: map<nat, nat>, broken: set<nat>, cur: nat, e: seq<nat>)
    requires Rebuilt(d, hw, offs, |offs|, slots, broken, cur) && Untouched(d, e, cur, slots) && hw <= |d|
    ensures slots == Sound(d, hw, Members(offs), Members(offs)) && broken == Members(offs) - slots.Keys
    ensures SlotsKept(d, e, slots) && AllHeaded(slots, e)
  {
    assert offs[..|offs|] == offs;
    SoundHeaded(d, hw, Members(offs), Members(offs));
    HeadedKept(slots, d, slots, e);
  }

  lemma SoundHeaded(d: seq<nat>, hw: nat, live: set<nat>, some: set<nat>)
    requires hw <= |d|
    ensures AllHeaded(Sound(d, hw, live, some), d)
  {
    hide Odd;
  }

  lemma WordsBelow(slots: map<nat, nat>, cur: nat, holes: map<nat, nat>, a: nat, n: nat, t: map<nat, nat>)
    requires Canonical(slots, cur, holes) && cur <= a && t == slots[a := n]
    ensures a !in slots && forall w: int {:trigger InMap(t, w)} | InMap(t, w) :: !(cur <= w < a)
  {
    forall w: int | InMap(t, w) ensures !(cur <= w < a) {
      var o :| o in t && o <= w < o + t[o];
    }
  }

  lemma LimitIs(d: seq<nat>, hw: nat, live: set<nat>, offs: seq<nat>, i: nat, limit: nat)
    requires Ascending(offs) && live == Members(offs) && i < |offs|
    requires limit == if i + 1 < |offs| && offs[i + 1] < hw then offs[i + 1] else hw
    ensures Survives(d, hw, live, offs[i]) <==>
      START <= offs[i] < hw && Looks(d, offs[i]) && offs[i] + d[offs[i]] / 4 <= limit
    ensures Survives(d, hw, live, offs[i]) ==> forall j | i < j < |offs| :: offs[i] + d[offs[i]] / 4 <= offs[j]
    ensures offs[i] !in Members(offs[..i])
  {
    hide Odd;
    if START <= offs[i] < hw && Looks(d, offs[i]) {
      if i + 1 < |offs| {
        assert offs[i + 1] in live;
      }
      if offs[i] + d[offs[i]] / 4 <= limit {
        forall b | b in live && offs[i] < b ensures offs[i] + d[offs[i]] / 4 <= b {
          var j :| 0 <= j < |offs| && offs[j] == b;
        }
      }
    }
    if Survives(d, hw, live, offs[i]) {
      forall j | i < j < |offs| ensures offs[i] + d[offs[i]] / 4 <= offs[j] {
        assert offs[j] in live;
      }
    }
  }

  lemma SoundMore(d: seq<nat>, hw: nat, live: set<nat>, some: set<nat>, a: nat)
    ensures Sound(d, hw, live, some + {a}) ==
      if Survives(d, hw, live, a) then Sound(d, hw, live, some)[a := d[a] / 4] else Sound(d, hw, live, some) - {a}
  {
  }

  ghost function Only(slots: map<nat, nat>, live: set<nat>): map<nat, nat> {
    map o | o in slots && o in live :: slots[o]
  }

  /**
   Rebuilding from some of the slots in use trusts each of them, but for a slot of two words with the generation flag
   before an odd word.
   */
  lemma RebuildTrusts(slots: map<nat, nat>, hw: nat, holes: map<nat, nat>, d: seq<nat>, live: set<nat>)
    requires Canonical(slots, hw, holes) && hw <= |d| && AllHeaded(slots, d) && live <= slots.Keys
    ensures Sound(d, hw, live, live) == Only(slots, set o | o in live && Looks(d, o))
    ensures forall o | o in live :: !Looks(d, o) <==>
      HasGen(d[o]) && slots[o] == MIN_SLOT && o + 2 < |d| && Odd(d[o + 2])
  {
    hide Odd, InMap;
    forall o | o in live ensures Survives(d, hw, live, o) <==> Looks(d, o) {
      assert HeaderOk(d, o, slots[o]);
    }
    forall o | o in live
      ensures !Looks(d, o) <==> HasGen(d[o]) && slots[o] == MIN_SLOT && o + 2 < |d| && Odd(d[o + 2]) {
      assert HeaderOk(d, o, slots[o]);
    }
  }

  /**
   The rebuild takes a live slot of two words with the generation flag, and freeing it overwrites the next slot's size.
   */
  lemma RebuiltAndHarmful()
    ensures var d: seq<nat>, live := [0, 0, 0, 9, 0, 12, 0, 0], {START, START + 2};
      var s := Sound(d, |d|, live, live);
      && s == map[START := 2, START + 2 := 3] && Canonical(s, |d|, map[]) && AllHeaded(s, d) && InRange(d, {START})
      && Harms(s, d, {START}) && MarkedBy(d, {START})[START + 2] == HOLE_GEN
  {
    var d: seq<nat>, live := [0, 0, 0, 9, 0, 12, 0, 0], {START, START + 2};
    var s := Sound(d, |d|, live, live);
    assert Survives(d, |d|, live, START) && Survives(d, |d|, live, START + 2);
    assert s == map[START := 2, START + 2 := 3];
    assert Marks(d, {START}, START);
    OneHarms(s, d, START);
    forall w | START <= w < |d| ensures InMap(s, w) {
      Covers(s, if w < START + 2 then START else START + 2, w);
    }
  }

  /** The cells name exactly the slots in use, and the rebuild takes each. */
  ghost predicate Rereads(slots: map<nat, nat>, d: seq<nat>, live: set<nat>) {
    live == slots.Keys && forall o | o in live :: Looks(d, o)
  }

  lemma RebuildSame(slots: map<nat, nat>, hw: nat, holes: map<nat, nat>, d: seq<nat>, live: set<nat>,
                    hw': nat, holes': map<nat, nat>)
    requires Canonical(Sound(d, hw, live, live), hw', holes')
    ensures Canonical(slots, hw, holes) && hw <= |d| && AllHeaded(slots, d) && Rereads(slots, d, live) ==>
      hw' == hw && holes' == holes && Sound(d, hw, live, live) == slots
  {
    hide Canonical, Sound, AllHeaded, Looks;
    if Canonical(slots, hw, holes) && hw <= |d| && AllHeaded(slots, d) && Rereads(slots, d, live) {
      RebuildTrusts(slots, hw, holes, d, live);
      assert (set o | o in live && Looks(d, o)) == live;
      assert Only(slots, live) == slots;
      CanonicalIsUnique(slots, hw, holes, hw', holes');
    }
  }

  /**
   The free list kept up step by step is the one rebuilt at open: once everything but `live` has been freed,
   in any order and in any batches, both are the same list under the same high-water mark.
   */
  lemma RebuildAgrees(slots: map<nat, nat>, hw: nat, holes: map<nat, nat>, d: seq<nat>, live: set<nat>,
                      kept: (nat, map<nat, nat>), rebuilt: (nat, map<nat, nat>))
    requires Canonical(slots, hw, holes) && hw <= |d| && AllHeaded(slots, d) && live <= slots.Keys
    requires forall o | o in live :: Looks(d, o)
    requires Canonical(slots - (slots.Keys - live), kept.0, kept.1)
    requires Canonical(Sound(d, hw, live, live), rebuilt.0, rebuilt.1)
    ensures kept == rebuilt
  {
    hide Canonical, Sound;
    RebuildTrusts(slots, hw, holes, d, live);
    assert (set o | o in live && Looks(d, o)) == live;
    assert slots - (slots.Keys - live) == Only(slots, live);
    CanonicalIsUnique(Only(slots, live), kept.0, kept.1, rebuilt.0, rebuilt.1);
  }
}
