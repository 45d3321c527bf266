/**
 The file of the identity map and the log beside it (crates/enchudb-engine/src/eidmap_log.rs): the form of a
 record, reading a log that may have been cut, and merging a log into the entries of the file.
 */
module EidmapLog {
  import opened Wrappers
  import opened Ordering
  import opened EidTranslators

  const NO_LOCAL_SLOT: nat := 0xFFFF_FFFF
  const MAPPING_GONE: nat := 0xFFFF_FFFE
  const HEADER_LEN: nat := 24
  const RECORD_LEN: nat := 32

  datatype Hlc = Hlc(wall: nat, logical: nat, peer: nat)

  const ZERO := Hlc(0, 0, 0)

  predicate HlcLe(a: Hlc, b: Hlc) {
    a.wall < b.wall || (a.wall == b.wall && (a.logical < b.logical || (a.logical == b.logical && a.peer <= b.peer)))
  }

  /** Wall, then logical, then peer; a total order with `ZERO` at the bottom. */
  lemma HlcOrder(a: Hlc, b: Hlc, c: Hlc)
    ensures a.wall < b.wall ==> HlcLe(a, b) && !HlcLe(b, a)
    ensures a.wall == b.wall && a.logical < b.logical ==> HlcLe(a, b) && !HlcLe(b, a)
    ensures a.wall == b.wall && a.logical == b.logical && a.peer < b.peer ==> HlcLe(a, b) && !HlcLe(b, a)
    ensures HlcLe(a, a) && HlcLe(ZERO, a) && (HlcLe(a, b) || HlcLe(b, a))
    ensures (HlcLe(a, b) && HlcLe(b, a) ==> a == b) && (HlcLe(a, b) && HlcLe(b, c) ==> HlcLe(a, c))
  {
  }

  function Later(a: Hlc, b: Hlc): Hlc {
    if HlcLe(a, b) then b else a
  }

  datatype Entry = Entry(key: Key, local: nat, tomb: Hlc)

  // ---- Bytes ----

  function Pow256(n: nat): (p: nat)
    ensures p > 0
  {
    if n == 0 then 1 else 256 * Pow256(n - 1)
  }

  /** Little-endian. */
  function Le(x: nat, n: nat): (b: seq<Byte>)
    ensures |b| == n
  {
    if n == 0 then [] else [x % 256] + Le(x / 256, n - 1)
  }

  function FromLe(b: seq<Byte>): (x: nat)
    ensures x < Pow256(|b|)
  {
    if b == [] then 0 else b[0] + 256 * FromLe(b[1..])
  }

  lemma {:induction false} LeBack(x: nat, n: nat)
    requires x < Pow256(n)
    ensures FromLe(Le(x, n)) == x
  {
    if n > 0 {
      LeBack(x / 256, n - 1);
      assert Le(x, n)[1..] == Le(x / 256, n - 1);
    }
  }

  /** The checksums, whatever they are. */
  datatype Sums = Sums(region: seq<Byte> -> nat, whole: seq<Byte> -> nat)

  ghost predicate SumsFit(f: Sums) {
    (forall b :: f.region(b) < Pow256(4)) && (forall b :: f.whole(b) < Pow256(8))
  }

  predicate Fits(e: Entry) {
    && e.key.peer < Pow256(4) && e.key.number < Pow256(4) && e.local < Pow256(4)
    && e.tomb.wall < Pow256(8) && e.tomb.logical < Pow256(4) && e.tomb.peer < Pow256(4)
  }

  function Fields(e: Entry): (b: seq<Byte>)
    ensures |b| == 28
  {
    Le(e.key.peer, 4) + Le(e.key.number, 4) + Le(e.local, 4)
      + Le(e.tomb.wall, 8) + Le(e.tomb.logical, 4) + Le(e.tomb.peer, 4)
  }

  function Record(f: Sums, e: Entry): (b: seq<Byte>)
    ensures |b| == RECORD_LEN
  {
    Fields(e) + Le(f.region(Fields(e)), 4)
  }

  function Header(f: Sums, snapshot: seq<Byte>): (b: seq<Byte>)
    ensures |b| == HEADER_LEN
  {
    [69, 73, 68, 76] + Le(1, 4) + Le(|snapshot|, 8) + Le(f.whole(snapshot), 8)
  }

  /** A log belongs to one snapshot: those of two that differ in length or checksum have different headers. */
  lemma HeaderTells(f: Sums, a: seq<Byte>, b: seq<Byte>)
    requires SumsFit(f) && |a| < Pow256(8) && |b| < Pow256(8)
    ensures Header(f, a) == Header(f, b) <==> |a| == |b| && f.whole(a) == f.whole(b)
  {
    var x, y := Header(f, a), Header(f, b);
    assert x[8..16] == Le(|a|, 8) && y[8..16] == Le(|b|, 8);
    assert x[16..24] == Le(f.whole(a), 8) && y[16..24] == Le(f.whole(b), 8);
    LeBack(|a|, 8);
    LeBack(|b|, 8);
    LeBack(f.whole(a), 8);
    LeBack(f.whole(b), 8);
  }

  function EntryIn(b: seq<Byte>): Entry
    requires |b| == RECORD_LEN
  {
    Entry(Key(FromLe(b[0..4]), FromLe(b[4..8])), FromLe(b[8..12]),
      Hlc(FromLe(b[12..20]), FromLe(b[20..24]), FromLe(b[24..28])))
  }

  predicate SumOk(f: Sums, b: seq<Byte>)
    requires |b| == RECORD_LEN
  {
    f.region(b[..28]) == FromLe(b[28..32])
  }

  /** What a record is read as. */
  lemma RecordBack(f: Sums, e: Entry)
    requires SumsFit(f) && Fits(e)
    ensures SumOk(f, Record(f, e)) && EntryIn(Record(f, e)) == e
  {
    var b := Record(f, e);
    assert b[..28] == Fields(e) && b[28..32] == Le(f.region(Fields(e)), 4);
    assert b[0..4] == Le(e.key.peer, 4) && b[4..8] == Le(e.key.number, 4) && b[8..12] == Le(e.local, 4);
    assert b[12..20] == Le(e.tomb.wall, 8) && b[20..24] == Le(e.tomb.logical, 4) && b[24..28] == Le(e.tomb.peer, 4);
    LeBack(f.region(Fields(e)), 4);
    LeBack(e.key.peer, 4);
    LeBack(e.key.number, 4);
    LeBack(e.local, 4);
    LeBack(e.tomb.wall, 8);
    LeBack(e.tomb.logical, 4);
    LeBack(e.tomb.peer, 4);
  }

  function Records(f: Sums, es: seq<Entry>): (b: seq<Byte>)
    ensures |b| == RECORD_LEN * |es|
  {
    if es == [] then [] else Records(f, es[..|es| - 1]) + Record(f, es[|es| - 1])
  }

  /** Add one record. */
  method PushRecord(f: Sums, out: seq<Byte>, e: Entry, ghost es: seq<Entry>,
      ghost head: seq<Byte>) returns (r: seq<Byte>)
    requires out == head + Records(f, es)
    ensures r == head + Records(f, es + [e])
  {
    r := out + Fields(e);
    var sum := f.region(r[|out|..]);
    assert r[|out|..] == Fields(e);
    r := r + Le(sum, 4);
    assert (es + [e])[..|es|] == es;
  }

  /** The entries of a log, up to the first record that is cut or damaged; and whether there is one. */
  function Parse(f: Sums, b: seq<Byte>): (seq<Entry>, bool) {
    if |b| < RECORD_LEN then ([], b != [])
    else if !SumOk(f, b[..RECORD_LEN]) then ([], true)
    else
      var (es, torn) := Parse(f, b[RECORD_LEN..]);
      ([EntryIn(b[..RECORD_LEN])] + es, torn)
  }

  /** Read a log. Refused when it does not continue this file. */
  method Read(f: Sums, buf: seq<Byte>, snapshot: seq<Byte>) returns (r: Option<(seq<Entry>, bool)>)
    ensures r.None? <==> !(HEADER_LEN <= |buf| && buf[..HEADER_LEN] == Header(f, snapshot))
    ensures r.Some? ==> r.value == Parse(f, buf[HEADER_LEN..])
    ensures r.Some? ==> ReadsAs(f, buf[HEADER_LEN..], r.value.0, r.value.1)
  {
    hide Header, EntryIn, SumOk, FromLe, ReadsAs;
    HeaderForm(f, snapshot);
    if |buf| < HEADER_LEN || buf[..4] != [69, 73, 68, 76] || FromLe(buf[4..8]) != 1 {
      if |buf| >= HEADER_LEN {
        assert buf[..HEADER_LEN][..4] == buf[..4] && buf[..HEADER_LEN][4..8] == buf[4..8];
      }
      return None;
    }
    if buf[..HEADER_LEN] != Header(f, snapshot) {
      return None;
    }
    ParseMeans(f, buf[HEADER_LEN..]);
    var out: seq<Entry>, off := [], HEADER_LEN;
    assert out + Parse(f, buf[off..]).0 == Parse(f, buf[HEADER_LEN..]).0;
    while off + RECORD_LEN <= |buf|
      invariant HEADER_LEN <= off <= |buf|
      invariant out + Parse(f, buf[off..]).0 == Parse(f, buf[HEADER_LEN..]).0
      invariant Parse(f, buf[off..]).1 == Parse(f, buf[HEADER_LEN..]).1
    {
      var rec := buf[off..off + RECORD_LEN];
      assert buf[off..][..RECORD_LEN] == rec && buf[off..][RECORD_LEN..] == buf[off + RECORD_LEN..];
      if !SumOk(f, rec) {
        assert out + [] == out;
        return Some((out, true));
      }
      out := out + [EntryIn(rec)];
      off := off + RECORD_LEN;
    }
    assert Parse(f, buf[off..]) == ([], off != |buf|) && out + [] == out;
    return Some((out, off != |buf|));
  }

  lemma HeaderForm(f: Sums, snapshot: seq<Byte>)
    ensures Header(f, snapshot)[..4] == [69, 73, 68, 76] && FromLe(Header(f, snapshot)[4..8]) == 1
  {
    assert Header(f, snapshot)[4..8] == Le(1, 4);
    LeBack(1, 4);
  }

  ghost function RecordAt(b: seq<Byte>, i: nat): seq<Byte>
    requires RECORD_LEN * (i + 1) <= |b|
  {
    b[RECORD_LEN * i..RECORD_LEN * (i + 1)]
  }

  ghost predicate GoodAt(f: Sums, b: seq<Byte>, i: nat, e: Entry) {
    RECORD_LEN * (i + 1) <= |b| && SumOk(f, RecordAt(b, i)) && e == EntryIn(RecordAt(b, i))
  }

  /**
   The entries are those of the records up to the first that is cut short or fails its checksum, and the log is torn
   exactly if anything is left behind them.
   */
  ghost predicate ReadsAs(f: Sums, b: seq<Byte>, es: seq<Entry>, torn: bool) {
    && (forall i | 0 <= i < |es| :: GoodAt(f, b, i, es[i]))
    && (RECORD_LEN * (|es| + 1) <= |b| ==> !SumOk(f, RecordAt(b, |es|)))
    && RECORD_LEN * |es| <= |b| && (torn <==> RECORD_LEN * |es| < |b|)
  }

  lemma {:induction false} ParseMeans(f: Sums, b: seq<Byte>)
    ensures var (es, torn) := Parse(f, b); ReadsAs(f, b, es, torn)
    decreases |b|
  {
    hide SumOk, EntryIn;
    if |b| >= RECORD_LEN && SumOk(f, b[..RECORD_LEN]) {
      ParseMeans(f, b[RECORD_LEN..]);
      var (es, torn) := Parse(f, b[RECORD_LEN..]);
      OneBefore(f, b, es, torn);
    }
  }

  lemma OneBefore(f: Sums, b: seq<Byte>, es: seq<Entry>, torn: bool)
    requires |b| >= RECORD_LEN && SumOk(f, b[..RECORD_LEN]) && ReadsAs(f, b[RECORD_LEN..], es, torn)
    ensures ReadsAs(f, b, [EntryIn(b[..RECORD_LEN])] + es, torn)
  {
    hide SumOk, EntryIn;
    var rest, all := b[RECORD_LEN..], [EntryIn(b[..RECORD_LEN])] + es;
    forall i: nat | RECORD_LEN * (i + 2) <= |b| ensures RecordAt(b, i + 1) == RecordAt(rest, i) {
    }
    forall i | 0 <= i < |all| ensures GoodAt(f, b, i, all[i]) {
      if i == 0 {
        assert RecordAt(b, 0) == b[..RECORD_LEN];
      } else {
        assert GoodAt(f, rest, i - 1, es[i - 1]) && RecordAt(b, i) == RecordAt(rest, i - 1);
      }
    }
  }

  /** A log cut anywhere reads as the whole records before the cut, and is torn exactly when bytes are left over. */
  lemma {:induction false} CutLog(f: Sums, es: seq<Entry>, n: nat)
    requires SumsFit(f) && (forall e | e in es :: Fits(e)) && n <= RECORD_LEN * |es|
    ensures Parse(f, Records(f, es)[..n]) == (es[..n / RECORD_LEN], n % RECORD_LEN != 0)
    decreases n
  {
    hide Record, Records, EntryIn, SumOk, Fits, SumsFit;
    var b := Records(f, es)[..n];
    if n >= RECORD_LEN {
      FirstRecord(f, es);
      var rest, m := es[1..], n - RECORD_LEN;
      assert b[..RECORD_LEN] == Record(f, es[0]);
      RecordBack(f, es[0]);
      assert b[RECORD_LEN..] == Records(f, rest)[..m];
      CutLog(f, rest, m);
      assert n / RECORD_LEN == m / RECORD_LEN + 1 && n % RECORD_LEN == m % RECORD_LEN;
      assert es[..m / RECORD_LEN + 1] == [es[0]] + rest[..m / RECORD_LEN];
    }
  }

  lemma {:induction false} FirstRecord(f: Sums, es: seq<Entry>)
    requires es != []
    ensures Records(f, es) == Record(f, es[0]) + Records(f, es[1..])
  {
    var n := |es| - 1;
    if n > 0 {
      FirstRecord(f, es[..n]);
      assert es[..n][1..] == es[1..][..n - 1];
    }
  }

  // ---- Merging ----

  /** The two sides of the file: mappings with the version of their deletion, and deletions without a slot. */
  datatype Sides = Sides(mapped: map<Key, (nat, Hlc)>, tombs: map<Key, Hlc>)

  const NOTHING := Sides(map[], map[])

  function Apply(s: Sides, e: Entry): Sides {
    if e.local == NO_LOCAL_SLOT then
      s.(tombs := s.tombs[e.key := Later(if e.key in s.tombs then s.tombs[e.key] else ZERO, e.tomb)])
    else if e.local == MAPPING_GONE then s.(mapped := s.mapped - {e.key})
    else s.(mapped := s.mapped[e.key := (e.local, e.tomb)])
  }

  ghost function Fold(s: Sides, es: seq<Entry>): Sides {
    if es == [] then s else Apply(Fold(s, es[..|es| - 1]), es[|es| - 1])
  }

  lemma {:induction false} FoldJoins(s: Sides, a: seq<Entry>, b: seq<Entry>)
    ensures Fold(s, a + b) == Fold(Fold(s, a), b)
  {
    if b == [] {
      assert a + b == a;
    } else {
      var n := |b| - 1;
      FoldJoins(s, a, b[..n]);
      assert (a + b)[..|a + b| - 1] == a + b[..n];
    }
  }

  predicate KeyLe(a: Key, b: Key) {
    a.peer < b.peer || (a.peer == b.peer && a.number <= b.number)
  }

  function LeastKey(s: set<Key>): (m: Key)
    requires s != {}
    ensures m in s && forall y | y in s :: KeyLe(m, y)
  {
    HasLeast(s, KeyLe);
    var m :| m in s && forall y | y in s :: KeyLe(m, y);
    m
  }

  /** Keys come in order, none twice. */
  ghost predicate InKeyOrder(es: seq<Entry>) {
    forall i, j | 0 <= i < j < |es| :: es[i].key != es[j].key && KeyLe(es[i].key, es[j].key)
  }

  function MappedEntries(m: map<Key, (nat, Hlc)>): (r: seq<Entry>)
    ensures InKeyOrder(r) && forall e :: e in r <==> e.key in m && m[e.key] == (e.local, e.tomb)
    decreases |m|
  {
    if m == map[] then [] else
      var k := LeastKey(m.Keys);
      [Entry(k, m[k].0, m[k].1)] + MappedEntries(m - {k})
  }

  function TombEntries(m: map<Key, Hlc>): (r: seq<Entry>)
    ensures InKeyOrder(r) && forall e :: e in r <==> e.key in m && e.local == NO_LOCAL_SLOT && m[e.key] == e.tomb
    decreases |m|
  {
    if m == map[] then [] else
      var k := LeastKey(m.Keys);
      [Entry(k, NO_LOCAL_SLOT, m[k])] + TombEntries(m - {k})
  }

  /** The entries of the file: the mappings in key order, then the deletions in key order. */
  function Entries(s: Sides): seq<Entry> {
    MappedEntries(s.mapped) + TombEntries(s.tombs)
  }

  /** `merge` as a function. */
  ghost function Merged(snapshot: seq<Entry>, log: seq<Entry>): seq<Entry> {
    Entries(Fold(Fold(NOTHING, snapshot), log))
  }

  /** A mapping names a slot. */
  ghost predicate Clean(s: Sides) {
    forall k | k in s.mapped :: s.mapped[k].0 != NO_LOCAL_SLOT && s.mapped[k].0 != MAPPING_GONE
  }

  lemma {:induction false} FoldClean(s: Sides, es: seq<Entry>)
    requires Clean(s)
    ensures Clean(Fold(s, es))
  {
    if es != [] {
      FoldClean(s, es[..|es| - 1]);
    }
  }

  /** The mappings in key order, then the deletions in key order. */
  ghost predicate Ordered(es: seq<Entry>) {
    exists n :: 0 <= n <= |es| && InKeyOrder(es[..n]) && InKeyOrder(es[n..])
      && (forall e | e in es[..n] :: e.local != NO_LOCAL_SLOT && e.local != MAPPING_GONE)
      && (forall e | e in es[n..] :: e.local == NO_LOCAL_SLOT)
  }

  lemma MergedInOrder(snapshot: seq<Entry>, log: seq<Entry>)
    ensures Ordered(Merged(snapshot, log))
  {
    FoldClean(NOTHING, snapshot);
    FoldClean(Fold(NOTHING, snapshot), log);
    var s := Fold(Fold(NOTHING, snapshot), log);
    hide Fold, InKeyOrder, MappedEntries, TombEntries;
    var a, b := MappedEntries(s.mapped), TombEntries(s.tombs);
    var n := |a|;
    assert (a + b)[..n] == a && (a + b)[n..] == b;
  }

  // ---- What a list of entries says of a key ----

  ghost predicate IsTomb(e: Entry, k: Key) {
    e.key == k && e.local == NO_LOCAL_SLOT
  }

  /** The entries have a deletion of `k` without a slot, and `h` is the latest of them. */
  ghost predicate LatestTomb(es: seq<Entry>, k: Key, h: Hlc) {
    && (exists e | e in es :: IsTomb(e, k) && e.tomb == h)
    && (forall e | e in es && IsTomb(e, k) :: HlcLe(e.tomb, h))
  }

  ghost predicate OfMapping(e: Entry, k: Key) {
    e.key == k && e.local != NO_LOCAL_SLOT
  }

  /** The last entry of the mapping of `k` gives it this slot. */
  ghost predicate LastMapping(es: seq<Entry>, k: Key, local: nat, tomb: Hlc) {
    && local != NO_LOCAL_SLOT && local != MAPPING_GONE
    && exists i :: 0 <= i < |es| && es[i] == Entry(k, local, tomb) && forall j | i < j < |es| :: !OfMapping(es[j], k)
  }

  ghost predicate TombsAre(s: Sides, es: seq<Entry>) {
    forall k, h :: k in s.tombs && s.tombs[k] == h <==> LatestTomb(es, k, h)
  }

  ghost predicate MappedAre(s: Sides, es: seq<Entry>) {
    forall k, l: nat, t :: k in s.mapped && s.mapped[k] == (l, t) <==> LastMapping(es, k, l, t)
  }

  lemma LatestMore(es: seq<Entry>, e: Entry, k: Key, h: Hlc)
    ensures !IsTomb(e, k) ==> (LatestTomb(es + [e], k, h) <==> LatestTomb(es, k, h))
    ensures IsTomb(e, k) && (forall x | x in es :: !IsTomb(x, k)) ==> (LatestTomb(es + [e], k, h) <==> h == e.tomb)
    ensures forall was | IsTomb(e, k) && LatestTomb(es, k, was) ::
      LatestTomb(es + [e], k, h) <==> h == if HlcLe(was, e.tomb) then e.tomb else was
  {
    assert forall x :: x in es + [e] <==> x in es || x == e;
    forall was | IsTomb(e, k) && LatestTomb(es, k, was)
      ensures LatestTomb(es + [e], k, h) <==> h == if HlcLe(was, e.tomb) then e.tomb else was
    {
      var x :| x in es && IsTomb(x, k) && x.tomb == was;
      assert x in es + [e] && e in es + [e];
    }
  }

  lemma {:induction false} HasLatest(es: seq<Entry>, k: Key)
    requires exists e | e in es :: IsTomb(e, k)
    ensures exists h :: LatestTomb(es, k, h)
  {
    var n := |es| - 1;
    var init, e := es[..n], es[n];
    assert es == init + [e];
    if exists x | x in init :: IsTomb(x, k) {
      HasLatest(init, k);
      var was :| LatestTomb(init, k, was);
      LatestMore(init, e, k, was);
      LatestMore(init, e, k, e.tomb);
    } else {
      LatestMore(init, e, k, e.tomb);
    }
  }

  lemma TombStep(s: Sides, es: seq<Entry>, e: Entry)
    requires TombsAre(s, es)
    ensures TombsAre(Apply(s, e), es + [e])
  {
    var t := Apply(s, e);
    forall k, h ensures k in t.tombs && t.tombs[k] == h <==> LatestTomb(es + [e], k, h) {
      LatestMore(es, e, k, h);
      if IsTomb(e, k) && k !in s.tombs {
        assert forall x | x in es :: !IsTomb(x, k) by {
          if exists x | x in es :: IsTomb(x, k) {
            HasLatest(es, k);
          }
        }
      } else if k in s.tombs {
        assert LatestTomb(es, k, s.tombs[k]);
      }
      hide LatestTomb;
    }
  }

  lemma MappingMore(es: seq<Entry>, e: Entry, k: Key, l: nat, t: Hlc)
    ensures LastMapping(es + [e], k, l, t) <==>
      if OfMapping(e, k) then e.local == l && e.tomb == t && l != MAPPING_GONE else LastMapping(es, k, l, t)
  {
    var all, n := es + [e], |es|;
    if LastMapping(all, k, l, t) {
      var i :| 0 <= i < |all| && all[i] == Entry(k, l, t) && forall j | i < j < |all| :: !OfMapping(all[j], k);
      assert i < n ==> es[i] == all[i] && !OfMapping(all[n], k);
      assert forall j | i < j < n :: es[j] == all[j];
    }
    if OfMapping(e, k) && e.local == l && e.tomb == t {
      assert all[n] == Entry(k, l, t);
    } else if !OfMapping(e, k) && LastMapping(es, k, l, t) {
      var i :| 0 <= i < n && es[i] == Entry(k, l, t) && forall j | i < j < n :: !OfMapping(es[j], k);
      assert all[i] == es[i];
      forall j | i < j < |all| ensures !OfMapping(all[j], k) {
        assert j < n ==> all[j] == es[j];
      }
    }
  }

  lemma MappedStep(s: Sides, es: seq<Entry>, e: Entry)
    requires MappedAre(s, es)
    ensures MappedAre(Apply(s, e), es + [e])
  {
    var t := Apply(s, e);
    forall k, l: nat, h ensures k in t.mapped && t.mapped[k] == (l, h) <==> LastMapping(es + [e], k, l, h) {
      MappingMore(es, e, k, l, h);
      hide LastMapping;
    }
  }

  lemma {:induction false} FoldMeans(es: seq<Entry>)
    ensures TombsAre(Fold(NOTHING, es), es) && MappedAre(Fold(NOTHING, es), es)
  {
    if es != [] {
      var n := |es| - 1;
      FoldMeans(es[..n]);
      hide TombsAre, MappedAre;
      TombStep(Fold(NOTHING, es[..n]), es[..n], es[n]);
      MappedStep(Fold(NOTHING, es[..n]), es[..n], es[n]);
      assert es[..n] + [es[n]] == es;
    }
  }

  /**
   What merging means, entry by entry: a deletion without a slot is there exactly if it is the latest of its key, and a
   mapping exactly if it is what the last entry of its key gave.
   */
  ghost predicate MergesTo(all: seq<Entry>, out: seq<Entry>) {
    && (forall k, h :: Entry(k, NO_LOCAL_SLOT, h) in out <==> LatestTomb(all, k, h))
    && (forall k, l: nat, t | l != NO_LOCAL_SLOT :: Entry(k, l, t) in out <==> LastMapping(all, k, l, t))
  }

  lemma MergedTombs(s: Sides, all: seq<Entry>, k: Key, h: Hlc)
    requires TombsAre(s, all) && !(k in s.mapped && s.mapped[k].0 == NO_LOCAL_SLOT)
    ensures Entry(k, NO_LOCAL_SLOT, h) in Entries(s) <==> LatestTomb(all, k, h)
  {
    hide LatestTomb, InKeyOrder;
    assert Entry(k, NO_LOCAL_SLOT, h) !in MappedEntries(s.mapped);
  }

  lemma MergedMapped(s: Sides, all: seq<Entry>, k: Key, l: nat, t: Hlc)
    requires MappedAre(s, all) && l != NO_LOCAL_SLOT
    ensures Entry(k, l, t) in Entries(s) <==> LastMapping(all, k, l, t)
  {
    hide LastMapping, InKeyOrder;
    assert Entry(k, l, t) !in TombEntries(s.tombs);
    assert k in s.mapped && s.mapped[k] == (l, t) <==> LastMapping(all, k, l, t);
  }

  lemma MergedMeans(snapshot: seq<Entry>, log: seq<Entry>)
    ensures MergesTo(snapshot + log, Merged(snapshot, log))
  {
    FoldJoins(NOTHING, snapshot, log);
    FoldMeans(snapshot + log);
    FoldClean(NOTHING, snapshot + log);
    var s, all := Fold(NOTHING, snapshot + log), snapshot + log;
    hide Fold, InKeyOrder, LatestTomb, LastMapping, TombsAre, MappedAre, Entries;
    forall k, h ensures Entry(k, NO_LOCAL_SLOT, h) in Entries(s) <==> LatestTomb(all, k, h) {
      MergedTombs(s, all, k, h);
    }
    forall k, l: nat, t | l != NO_LOCAL_SLOT ensures Entry(k, l, t) in Entries(s) <==> LastMapping(all, k, l, t) {
      MergedMapped(s, all, k, l, t);
    }
  }

  /** Apply the records of a log to the entries of the file. */
  method Merge(snapshot: seq<Entry>, log: seq<Entry>) returns (out: seq<Entry>)
    ensures out == Merged(snapshot, log) && Ordered(out) && MergesTo(snapshot + log, out)
  {
    var s := NOTHING;
    for i := 0 to |snapshot|
      invariant s == Fold(NOTHING, snapshot[..i])
    {
      assert snapshot[..i + 1][..i] == snapshot[..i];
      s := Apply(s, snapshot[i]);
    }
    assert snapshot[..|snapshot|] == snapshot;
    ghost var mid := s;
    for i := 0 to |log|
      invariant s == Fold(mid, log[..i])
    {
      assert log[..i + 1][..i] == log[..i];
      s := Apply(s, log[i]);
    }
    assert log[..|log|] == log;
    out := Entries(s);
    MergedInOrder(snapshot, log);
    MergedMeans(snapshot, log);
  }

  lemma FoldOne(s: Sides, e: Entry, es: seq<Entry>)
    ensures Fold(s, [e] + es) == Fold(Apply(s, e), es)
  {
    FoldJoins(s, [e], es);
    assert [e][..0] == [];
  }

  lemma {:induction false} FoldMapped(s: Sides, m: map<Key, (nat, Hlc)>)
    requires Clean(Sides(m, map[]))
    ensures Fold(s, MappedEntries(m)) == s.(mapped := s.mapped + m)
    decreases |m|
  {
    hide Fold;
    if m == map[] {
      FoldNone(s);
      assert s.mapped + m == s.mapped;
    } else {
      var k := LeastKey(m.Keys);
      var e, rest := Entry(k, m[k].0, m[k].1), m - {k};
      assert MappedEntries(m) == [e] + MappedEntries(rest);
      hide MappedEntries;
      FoldOne(s, e, MappedEntries(rest));
      FoldMapped(Apply(s, e), rest);
      OneFirst(s.mapped, m, k);
    }
  }

  lemma {:induction false} FoldTombs(s: Sides, m: map<Key, Hlc>)
    requires s.tombs.Keys !! m.Keys
    ensures Fold(s, TombEntries(m)) == s.(tombs := s.tombs + m)
    decreases |m|
  {
    hide Fold;
    if m == map[] {
      FoldNone(s);
      assert s.tombs + m == s.tombs;
    } else {
      var k := LeastKey(m.Keys);
      var e, rest := Entry(k, NO_LOCAL_SLOT, m[k]), m - {k};
      assert TombEntries(m) == [e] + TombEntries(rest);
      hide TombEntries;
      FoldOne(s, e, TombEntries(rest));
      assert Apply(s, e) == s.(tombs := s.tombs[k := m[k]]);
      FoldTombs(Apply(s, e), rest);
      OneFirst(s.tombs, m, k);
    }
  }

  lemma OneFirst<V>(a: map<Key, V>, m: map<Key, V>, k: Key)
    requires k in m
    ensures a[k := m[k]] + (m - {k}) == a + m
  {
  }

  lemma FoldNone(s: Sides)
    ensures Fold(s, []) == s
  {
  }

  /** Reading back the entries of the file gives both sides again. */
  lemma EntriesBack(s: Sides)
    requires Clean(s)
    ensures Fold(NOTHING, Entries(s)) == s
  {
    hide Fold, InKeyOrder, MappedEntries, TombEntries;
    FoldJoins(NOTHING, MappedEntries(s.mapped), TombEntries(s.tombs));
    FoldMapped(NOTHING, s.mapped);
    assert NOTHING.mapped + s.mapped == s.mapped;
    FoldTombs(Sides(s.mapped, map[]), s.tombs);
    assert map[] + s.tombs == s.tombs;
  }

  /** Merging a log in two parts is merging it at once. */
  lemma MergeTwice(s: seq<Entry>, a: seq<Entry>, b: seq<Entry>)
    ensures Merged(Merged(s, a), b) == Merged(s, a + b)
  {
    FoldClean(NOTHING, s);
    FoldClean(Fold(NOTHING, s), a);
    EntriesBack(Fold(Fold(NOTHING, s), a));
    FoldJoins(Fold(NOTHING, s), a, b);
  }

  // ---- The log follows the map ----

  /** The mappings with the versions of their locals. */
  ghost function WithVersions(m: map<Key, nat>, ver: nat -> Hlc): map<Key, (nat, Hlc)> {
    map k | k in m :: (m[k], ver(m[k]))
  }

  /** The record of a key: the local it has in the file now, or that it is gone. */
  function RecordOf(k: Key, local: Option<nat>, ver: nat -> Hlc): Entry {
    match local
    case Some(l) => Entry(k, l, ver(l))
    case None => Entry(k, MAPPING_GONE, ZERO)
  }

  ghost predicate Slots(m: map<Key, nat>) {
    forall k | k in m :: m[k] < MAPPING_GONE
  }

  /** Keys of `done` are as they are now, and the others as they were. */
  ghost predicate Caught(s: Sides, was: map<Key, (nat, Hlc)>, now: map<Key, (nat, Hlc)>, tombs: map<Key, Hlc>,
      done: seq<Key>) {
    && s.tombs == tombs
    && forall k :: (k in s.mapped <==> k in if k in done then now else was)
        && (k in s.mapped ==> s.mapped[k] == if k in done then now[k] else was[k])
  }

  /** One record for each key, by what the file holds of it now. */
  ghost predicate RecordsOf(recs: seq<Entry>, keys: seq<Key>, m: map<Key, nat>, ver: nat -> Hlc) {
    |recs| == |keys| && forall i | 0 <= i < |keys| :: recs[i] == RecordOf(keys[i], Lookup(m, keys[i]), ver)
  }

  lemma {:induction false} CatchUp(was: map<Key, (nat, Hlc)>, m: map<Key, nat>, ver: nat -> Hlc, tombs: map<Key, Hlc>,
      recs: seq<Entry>, keys: seq<Key>)
    requires Slots(m) && RecordsOf(recs, keys, m, ver)
    ensures Caught(Fold(Sides(was, tombs), recs), was, WithVersions(m, ver), tombs, keys)
  {
    if recs != [] {
      var n := |recs| - 1;
      CatchUp(was, m, ver, tombs, recs[..n], keys[..n]);
      assert keys == keys[..n] + [keys[n]];
    }
  }

  /** In terms of the file: its old entries merged with the log are the entries it would be written with now. */
  lemma LogFollowsMap(was: Sides, now: Sides, recs: seq<Entry>)
    requires Clean(was) && Fold(was, recs) == now
    ensures Merged(Entries(was), recs) == Entries(now)
  {
    EntriesBack(was);
  }

  /** Further records: if the file and its log stand for `was`, they stand for `now` with the records after the log. */
  lemma LogGoesOn(file: seq<Entry>, log: seq<Entry>, was: Sides, now: Sides, recs: seq<Entry>)
    requires Clean(was) && Merged(file, log) == Entries(was) && Fold(was, recs) == now
    ensures Merged(file, log + recs) == Entries(now)
  {
    MergeTwice(file, log, recs);
    LogFollowsMap(was, now, recs);
  }

  lemma VersionsClean(m: map<Key, nat>, ver: nat -> Hlc, tombs: map<Key, Hlc>)
    requires Slots(m)
    ensures Clean(Sides(WithVersions(m, ver), tombs))
  {
  }

  /**
   Write one record for each marked key. Merged into what the file held, they give what it holds now, whatever
   deletions without a slot it has. Versions may have changed too, if the keys of their locals were marked. If the file
   and the log so far merge to the entries of the map as it was, then with these records they merge to those of the map
   as it is; so it is after any number of write-outs.
   */
  method WriteDirty(t: EidTranslator, ver: nat -> Hlc, ghost before: nat -> Hlc,
                    ghost file: seq<Entry>, ghost log: seq<Entry>, ghost deleted: map<Key, Hlc>)
    returns (recs: seq<Entry>)
    requires t.Valid() && Slots(Mapped(t.fwd, t.al)) && Slots(t.base)
    requires Merged(file, log) == Entries(Sides(WithVersions(t.base, before), deleted))
    requires forall k | k in t.base && ver(t.base[k]) != before(t.base[k]) :: k in t.dirty
    modifies t`dirty, t`base
    ensures t.Valid() && t.dirty == [] && t.base == Mapped(t.fwd, t.al)
    ensures Slots(t.base) && Merged(file, log + recs) == Entries(Sides(WithVersions(t.base, ver), deleted))
    ensures forall tombs ::
      Fold(Sides(WithVersions(old(t.base), before), tombs), recs) == Sides(WithVersions(t.base, ver), tombs)
  {
    hide Entries, Merged, Clean, Slots, Partition, Noticed, Mapped, WithVersions, Caught, Fold;
    ghost var base, m := t.base, Mapped(t.fwd, t.al);
    var keys := t.TakeDirty();
    recs := [];
    var left := keys;
    ghost var done: seq<Key> := [];
    while left != {}
      modifies {}
      invariant RecordsOf(recs, done, m, ver) && forall k :: k in keys <==> k in left || k in done
      decreases |left|
    {
      var k := LeastKey(left);
      var local := t.MappedLocal(k);
      recs := recs + [RecordOf(k, local, ver)];
      left, done := left - {k}, done + [k];
    }
    forall tombs ensures Fold(Sides(WithVersions(base, before), tombs), recs) == Sides(WithVersions(m, ver), tombs) {
      CatchUp(WithVersions(base, before), m, ver, tombs, recs, done);
      AllCaught(Fold(Sides(WithVersions(base, before), tombs), recs), base, m, before, ver, tombs, done);
    }
    VersionsClean(base, before, deleted);
    LogGoesOn(file, log, Sides(WithVersions(base, before), deleted), Sides(WithVersions(m, ver), deleted), recs);
  }

  lemma AllCaught(s: Sides, base: map<Key, nat>, m: map<Key, nat>, before: nat -> Hlc, ver: nat -> Hlc,
      tombs: map<Key, Hlc>, done: seq<Key>)
    requires Caught(s, WithVersions(base, before), WithVersions(m, ver), tombs, done)
    requires forall k | k !in done :: Lookup(base, k) == Lookup(m, k)
    requires forall k | k in base && ver(base[k]) != before(base[k]) :: k in done
    ensures s == Sides(WithVersions(m, ver), tombs)
  {
    var now := WithVersions(m, ver);
    forall k ensures (k in s.mapped <==> k in now) && (k in s.mapped ==> s.mapped[k] == now[k]) {
      if k !in done {
        assert Lookup(base, k) == Lookup(m, k);
      }
    }
    assert s.mapped == now;
  }
}
