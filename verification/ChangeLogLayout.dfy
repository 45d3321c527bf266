/**
 The geometry and the on-disk form of the change log (crates/enchudb-engine/src/change_log.rs).

 The data area is counted in 8-byte words. A position on the endless line the log writes along
 is a `Spot`: how many times the area was gone around, and the word inside it. Where entry `k`
 goes depends only on the records before it, never on what was dropped.

 Checksums are ideal: an entry passes exactly when all its words were written as that entry.
 */
module ChangeLogLayout {
  import opened Wrappers

  const HDR: nat := 5          // ENTRY_HEADER, 40 bytes
  const WRAP: nat := 0xFFFF_FFFF_FFFF_FFFF
  const MIN_CAP: nat := 0x2_0000

  datatype Hlc = Hlc(wall: nat, tick: nat)

  const ZERO_HLC := Hlc(0, 0)

  /** `len` counts bytes, `payload` the words they fill. */
  datatype RawRecord = Record(hlc: Hlc, walId: nat, len: nat, payload: seq<nat>)
  type Record = r: RawRecord | |r.payload| == (r.len + 7) / 8 witness Record(ZERO_HLC, 0, 0, [])

  /** `stream(k)` is the record the caller gives number `k`, each time it gives it. */
  datatype RawLayout = Layout(cap: nat, stream: nat -> Record)
  type Layout = g: RawLayout | g.cap >= MIN_CAP witness Layout(MIN_CAP, k => Record(ZERO_HLC, 0, 0, []))

  datatype Cursor = Cursor(tail: nat, head: nat, first: nat, next: nat, last: Option<(Hlc, nat)>)

  /** One word of the data area: never written, word `i` of entry `no`, or word `i` of a wrap marker. */
  datatype Word = Blank | Part(no: nat, i: nat) | Mark(i: nat)

  datatype Header = Header(no: nat, len: nat, hlc: Hlc, walId: nat)

  datatype Spot = Spot(lap: nat, off: nat) {
    predicate Le(o: Spot) {
      lap < o.lap || (lap == o.lap && off <= o.off)
    }
  }

  // ---- Where entries go ----

  function SizeOf(len: nat): nat {
    HDR + (len + 7) / 8
  }

  function Size(g: Layout, k: nat): nat {
    SizeOf(g.stream(k).len)
  }

  /** A record longer than a quarter of the area keeps its number only. */
  predicate Oversize(g: Layout, k: nat) {
    g.stream(k).len > 2 * g.cap - 40
  }

  /** The spot after the first `k` records. */
  function HeadAt(g: Layout, k: nat): (s: Spot)
    ensures s.off < g.cap
  {
    if k == 0 then Spot(0, 0)
    else if Oversize(g, k - 1) then HeadAt(g, k - 1)
    else After(g, HeadAt(g, k - 1), k - 1)
  }

  /** The spot of entry `k` when the head is at `h`: there, or at the start of the next lap. */
  function Placed(g: Layout, h: Spot, k: nat): Spot
    requires h.off < g.cap
  {
    if g.cap - h.off >= Size(g, k) then h else Spot(h.lap + 1, 0)
  }

  function After(g: Layout, h: Spot, k: nat): (s: Spot)
    requires h.off < g.cap && !Oversize(g, k)
    ensures s.off < g.cap
  {
    var p := Placed(g, h, k);
    if p.off + Size(g, k) == g.cap then Spot(p.lap + 1, 0) else Spot(p.lap, p.off + Size(g, k))
  }

  function PosAt(g: Layout, k: nat): Spot {
    Placed(g, HeadAt(g, k), k)
  }

  function Head(g: Layout, k: nat): nat {
    HeadAt(g, k).off
  }

  function Pos(g: Layout, k: nat): nat {
    PosAt(g, k).off
  }

  /** `e % cap` for an end of entry `e <= cap`. */
  function Fold(cap: nat, e: nat): nat {
    if e == cap then 0 else e
  }

  // ---- Words ----

  function EntryWord(g: Layout, no: nat, i: nat): nat {
    var r := g.stream(no);
    if i == 0 then no
    else if i == 1 then r.len
    else if i == 2 then r.hlc.wall
    else if i == 3 then r.hlc.tick
    else if i == 4 then r.walId
    else if i - HDR < |r.payload| then r.payload[i - HDR]
    else 0
  }

  /** The 64-bit value a word reads as. A payload word may read as anything, `WRAP` too. */
  function Value(g: Layout, w: Word): nat {
    match w
    case Blank => 0
    case Part(no, i) => EntryWord(g, no, i)
    case Mark(i) => if i == 0 then WRAP else 0
  }

  function WrapAt(g: Layout, d: seq<Word>, at: nat): (a: nat)
    requires |d| == g.cap && at < g.cap
    ensures a == at || a == 0
  {
    if g.cap - at < HDR || Value(g, d[at]) == WRAP then 0 else at
  }

  /** The header found at `at`, unchecked. */
  function HeaderAt(g: Layout, d: seq<Word>, at: nat): (r: Option<Header>)
    requires |d| == g.cap && at < g.cap
    ensures r.Some? ==> at + SizeOf(r.value.len) <= g.cap && r.value.no != WRAP
  {
    if g.cap - at < HDR then None else
    var no, len := Value(g, d[at]), Value(g, d[at + 1]);
    if no == WRAP || at + SizeOf(len) > g.cap then None
    else Some(Header(no, len, Hlc(Value(g, d[at + 2]), Value(g, d[at + 3])), Value(g, d[at + 4])))
  }

  /** The entry found at `at`: its header, when the checksum over all of it holds. */
  function EntryAt(g: Layout, d: seq<Word>, at: nat): (r: Option<Header>)
    requires |d| == g.cap && at < g.cap
    ensures r.Some? ==> at + SizeOf(r.value.len) <= g.cap && r.value.no != WRAP
  {
    var h := HeaderAt(g, d, at);
    if h.Some? && forall i | 0 <= i < SizeOf(h.value.len) :: d[at + i] == Part(h.value.no, i)
    then h else None
  }

  ghost predicate Whole(g: Layout, d: seq<Word>, k: nat)
    requires |d| == g.cap
  {
    && k < WRAP && !Oversize(g, k)
    && Pos(g, k) + Size(g, k) <= g.cap
    && forall i | 0 <= i < Size(g, k) :: d[Pos(g, k) + i] == Part(k, i)
  }

  function HeaderOf(g: Layout, k: nat): Header {
    Header(k, g.stream(k).len, g.stream(k).hlc, g.stream(k).walId)
  }

  function LastOf(g: Layout, next: nat): Option<(Hlc, nat)> {
    if next == 0 then None else Some((g.stream(next - 1).hlc, g.stream(next - 1).walId))
  }

  /** Every word of an entry sits where that entry goes. */
  ghost predicate HomeWord(g: Layout, p: nat, w: Word) {
    w.Part? ==> !Oversize(g, w.no) && w.i < Size(g, w.no) && p == Pos(g, w.no) + w.i
  }

  ghost predicate Home(g: Layout, d: seq<Word>) {
    |d| == g.cap && forall p | 0 <= p < |d| :: HomeWord(g, p, d[p])
  }

  // ---- Cursors ----

  /** `s` is at or after `t`, and no more than one lap after it. */
  predicate Within(t: Spot, s: Spot) {
    (s.lap == t.lap && t.off <= s.off) || (s.lap == t.lap + 1 && s.off <= t.off)
  }

  /** The spot of the tail: just past the entry dropped last, or the first entry itself. */
  function TailAt(g: Layout, tail: nat, first: nat): Spot {
    if tail == Head(g, first) then HeadAt(g, first) else PosAt(g, first)
  }

  ghost predicate Shape(g: Layout, c: Cursor) {
    && c.first <= c.next <= WRAP
    && c.head == Head(g, c.next)
    && (c.first == c.next ==> c.tail == c.head)
    && (c.tail == Head(g, c.first) || c.tail == Pos(g, c.first))
  }

  /** Entries `first..n` are whole, and walking from `tail` meets each at its place. */
  ghost predicate Held(g: Layout, d: seq<Word>, tail: nat, first: nat, n: nat)
    requires |d| == g.cap && tail < g.cap
  {
    forall k | first <= k < n :: Whole(g, d, k) && WrapAt(g, d, if k == first then tail else Head(g, k)) == Pos(g, k)
  }

  /** Opening with cursor `h` over `d` finds at least the numbers up to `n`. */
  ghost predicate Supports(g: Layout, d: seq<Word>, h: Cursor, n: nat) {
    && Home(g, d)
    && Shape(g, h) && h.tail < g.cap && h.last == LastOf(g, h.next)
    && h.next <= n <= WRAP
    && (h.first < n ==> Within(TailAt(g, h.tail, h.first), HeadAt(g, n)))
    && Held(g, d, h.tail, h.first, n)
  }

  ghost predicate Intact(g: Layout, d: seq<Word>, c: Cursor) {
    Supports(g, d, c, c.next)
  }

  /** Whether `n` words from `at` (the head or 0) miss the entries in use. */
  predicate FreeAt(cap: nat, c: Cursor, at: nat, n: nat) {
    var t, h := c.tail, c.head;
    if at + n > cap then false
    else if t < h then at == h || at + n <= t
    else if t > h then at == h && h + n <= t
    else false
  }

  // ---- Facts ----

  lemma SizeBound(g: Layout, k: nat)
    requires !Oversize(g, k)
    ensures HDR <= Size(g, k) && 4 * Size(g, k) <= g.cap + 3
  {
  }

  /** Heads move forward, and entry `k` lies between head `k` and head `k + 1`. */
  lemma {:induction false} Forward(g: Layout, j: nat, k: nat)
    requires j <= k
    ensures HeadAt(g, j).Le(HeadAt(g, k))
    decreases k
  {
    if j < k {
      Forward(g, j, k - 1);
    }
  }

  lemma Between(g: Layout, k: nat)
    requires !Oversize(g, k)
    ensures HeadAt(g, k).Le(PosAt(g, k))
    ensures Pos(g, k) + Size(g, k) <= g.cap
    ensures HeadAt(g, k + 1) == After(g, HeadAt(g, k), k)
    ensures HeadAt(g, k + 1).off == Fold(g.cap, Pos(g, k) + Size(g, k))
  {
    SizeBound(g, k);
  }

  /** The words on the line from `t` to `s`, as places in the data area. */
  ghost predicate Live(t: Spot, s: Spot, p: nat) {
    if s.lap == t.lap then t.off <= p < s.off else p >= t.off || p < s.off
  }

  /** An entry's words lie on the line between any two spots around it. */
  lemma EntryLive(g: Layout, t: Spot, n: nat, k: nat)
    requires k < n && !Oversize(g, k)
    requires Within(t, HeadAt(g, n)) && t.Le(PosAt(g, k))
    ensures forall p | Pos(g, k) <= p < Pos(g, k) + Size(g, k) :: Live(t, HeadAt(g, n), p)
    ensures t.Le(HeadAt(g, k)) ==> Live(t, HeadAt(g, n), Head(g, k))
  {
    hide HeadAt;
    Between(g, k);
    SizeBound(g, k);
    Forward(g, k + 1, n);
  }

  /** The words a later entry, or the wrap marker before it, takes are not on the line before it. */
  lemma EntryFresh(g: Layout, t: Spot, n: nat, k: nat)
    requires n <= k && !Oversize(g, k)
    requires t.Le(HeadAt(g, n)) && t != HeadAt(g, n)
    requires Within(t, HeadAt(g, k + 1))
    ensures forall p | Pos(g, k) <= p < Pos(g, k) + Size(g, k) :: !Live(t, HeadAt(g, n), p)
    ensures Pos(g, k) != Head(g, k) ==> forall p | Head(g, k) <= p < g.cap :: !Live(t, HeadAt(g, n), p)
  {
    hide HeadAt;
    Between(g, k);
    SizeBound(g, k);
    Forward(g, n, k);
  }

  /** The room test answers exactly whether the next entry stays within one lap of the tail. */
  lemma FreeAtIsRoom(g: Layout, c: Cursor, t: Spot)
    requires !Oversize(g, c.next)
    requires c.head == Head(g, c.next) && c.tail == t.off < g.cap
    requires Within(t, HeadAt(g, c.next)) && t != HeadAt(g, c.next)
    ensures FreeAt(g.cap, c, Pos(g, c.next), Size(g, c.next)) <==> Within(t, HeadAt(g, c.next + 1))
  {
    hide HeadAt;
    Between(g, c.next);
    SizeBound(g, c.next);
  }

  lemma EntryIsWhole(g: Layout, d: seq<Word>, at: nat)
    requires Home(g, d) && at < g.cap
    requires EntryAt(g, d, at).Some?
    ensures var k := EntryAt(g, d, at).value.no;
      k < WRAP ==> EntryAt(g, d, at).value == HeaderOf(g, k) && at == Pos(g, k) && Whole(g, d, k)
  {
    hide HeadAt;
    var h := HeaderAt(g, d, at).value;
    assert d[at + 0] == Part(h.no, 0) && d[at + 1] == Part(h.no, 1);
    assert d[at + 2] == Part(h.no, 2) && d[at + 3] == Part(h.no, 3) && d[at + 4] == Part(h.no, 4);
    assert HomeWord(g, at, d[at]);
    Between(g, h.no);
  }

  lemma WholeIsEntry(g: Layout, d: seq<Word>, k: nat)
    requires |d| == g.cap && Whole(g, d, k)
    ensures EntryAt(g, d, Pos(g, k)) == HeaderAt(g, d, Pos(g, k)) == Some(HeaderOf(g, k))
  {
    hide HeadAt;
    var at := Pos(g, k);
    assert d[at + 0] == Part(k, 0) && d[at + 1] == Part(k, 1);
    assert d[at + 2] == Part(k, 2) && d[at + 3] == Part(k, 3) && d[at + 4] == Part(k, 4);
  }
}
