/**
 How leaf slots and free holes tile the leaf region (crates/enchudb-engine/src/leaf_store.rs), in words.

 A free list is canonical when its holes are exactly the words no slot takes, in runs as long as they
 can be, and the high-water mark stands right after the last slot. There is only one such list for a
 given set of slots, so every way of keeping or rebuilding it gives the same one.
 */
module LeafTiling {
  /** The first slot: the 12-byte region header in 4-byte words (shift 2). */
  const START: nat := 3

  ghost predicate InMap(m: map<nat, nat>, w: int) {
    exists o | o in m :: o <= w < o + m[o]
  }

  ghost predicate Free(slots: map<nat, nat>, hw: nat, w: int) {
    START <= w < hw && !InMap(slots, w)
  }

  ghost predicate SlotsOk(slots: map<nat, nat>, hw: nat) {
    && START <= hw
    && (forall o | o in slots :: START <= o < o + slots[o] <= hw)
    && (forall o, p | o in slots && p in slots && o < p :: o + slots[o] <= p)
  }

  /** No free word goes on where a hole starts or ends. */
  ghost predicate EdgesOk(slots: map<nat, nat>, hw: nat, holes: map<nat, nat>) {
    forall o | o in holes :: 0 < holes[o] && !Free(slots, hw, o as int - 1) && !Free(slots, hw, o + holes[o])
  }

  ghost predicate WordsOk(slots: map<nat, nat>, hw: nat, holes: map<nat, nat>) {
    forall w :: InMap(holes, w) <==> Free(slots, hw, w)
  }

  ghost predicate HolesOk(slots: map<nat, nat>, hw: nat, holes: map<nat, nat>) {
    EdgesOk(slots, hw, holes) && WordsOk(slots, hw, holes)
  }

  ghost predicate Canonical(slots: map<nat, nat>, hw: nat, holes: map<nat, nat>) {
    && SlotsOk(slots, hw)
    && (hw > START ==> InMap(slots, hw - 1))
    && HolesOk(slots, hw, holes)
  }

  // ---- Words of a map of runs ----

  ghost predicate Apart(m: map<nat, nat>) {
    forall o, p | o in m && p in m && o < p :: o + m[o] <= p
  }

  lemma Covers(m: map<nat, nat>, o: nat, w: int)
    requires o in m && o <= w < o + m[o]
    ensures InMap(m, w)
  {
  }

  lemma WordsWith(m: map<nat, nat>, o: nat, n: nat, r: map<nat, nat>)
    requires o !in m && r == m[o := n]
    ensures forall w: int {:trigger InMap(r, w)} {:trigger InMap(m, w)} :: InMap(r, w) <==>
      InMap(m, w) || o <= w < o + n
  {
    forall w: int ensures InMap(r, w) <==> InMap(m, w) || o <= w < o + n {
      assert o in r;
      if InMap(m, w) {
        var p :| p in m && p <= w < p + m[p];
        assert p in r;
      }
    }
  }

  lemma WordsWithout(m: map<nat, nat>, o: nat, r: map<nat, nat>)
    requires Apart(m) && r == m - {o}
    ensures Apart(r)
    ensures forall w: int {:trigger InMap(r, w)} {:trigger InMap(m, w)} ::
      InMap(r, w) <==> InMap(m, w) && !(o in m && o <= w < o + m[o])
  {
    forall w: int ensures InMap(r, w) <==> InMap(m, w) && !(o in m && o <= w < o + m[o]) {
      if InMap(m, w) {
        var p :| p in m && p <= w < p + m[p];
        assert p != o ==> p in r;
      }
      if InMap(r, w) {
        var p :| p in r && p <= w < p + r[p];
        assert p in m;
      }
    }
  }

  /** Joining a run with the one right after it changes no word. */
  lemma JoinWords(m: map<nat, nat>, o: nat, r: map<nat, nat>)
    requires o in m && 0 < m[o] && o + m[o] in m && r == (m - {o + m[o]})[o := m[o] + m[o + m[o]]]
    ensures forall w: int {:trigger InMap(r, w)} {:trigger InMap(m, w)} :: InMap(r, w) <==> InMap(m, w)
  {
    forall w: int ensures InMap(r, w) <==> InMap(m, w) {
      if InMap(m, w) {
        var p :| p in m && p <= w < p + m[p];
        assert p in r || p == o + m[o];
        assert o in r;
      }
      if InMap(r, w) {
        var p :| p in r && p <= w < p + r[p];
        assert p in m && o + m[o] in m;
      }
    }
  }

  lemma HolesAreApart(slots: map<nat, nat>, hw: nat, holes: map<nat, nat>)
    requires HolesOk(slots, hw, holes)
    ensures Apart(holes)
  {
    forall o, p | o in holes && p in holes && o < p ensures o + holes[o] <= p {
      RunOf(slots, hw, holes, o);
      var q: int := p - 1;
      assert o <= q < o + holes[o] ==> Free(slots, hw, q);
    }
  }

  /** The canonical list is the only one. */
  lemma CanonicalIsUnique(slots: map<nat, nat>, hw: nat, holes: map<nat, nat>, hw': nat, holes': map<nat, nat>)
    requires Canonical(slots, hw, holes) && Canonical(slots, hw', holes')
    ensures hw == hw' && holes == holes'
  {
    assert hw == hw';
    HolesSame(slots, hw, holes, holes');
    HolesSame(slots, hw, holes', holes);
  }

  lemma HolesSame(slots: map<nat, nat>, hw: nat, holes: map<nat, nat>, holes': map<nat, nat>)
    requires HolesOk(slots, hw, holes) && HolesOk(slots, hw, holes')
    ensures forall o | o in holes :: o in holes' && holes'[o] == holes[o]
  {
    forall o | o in holes ensures o in holes' && holes'[o] == holes[o] {
      RunOf(slots, hw, holes, o);
      StartsHole(slots, hw, holes', o);
      RunOf(slots, hw, holes', o);
      var e: int, e': int := o + holes[o], o + holes'[o];
      assert o <= e' < e ==> Free(slots, hw, e');
      assert o <= e < e' ==> Free(slots, hw, e);
    }
  }

  /** A hole is free all along, and its first word starts a run. */
  lemma RunOf(slots: map<nat, nat>, hw: nat, holes: map<nat, nat>, o: nat)
    requires HolesOk(slots, hw, holes) && o in holes
    ensures forall w: int | o <= w < o + holes[o] :: Free(slots, hw, w)
    ensures START <= o < o + holes[o] <= hw
  {
    forall w: int | o <= w < o + holes[o] ensures Free(slots, hw, w) {
      Covers(holes, o, w);
    }
    var first: int, last: int := o, o + holes[o] - 1;
    assert Free(slots, hw, first) && Free(slots, hw, last);
  }

  /** A free word that starts a run starts a hole. */
  lemma StartsHole(slots: map<nat, nat>, hw: nat, holes: map<nat, nat>, w: nat)
    requires HolesOk(slots, hw, holes) && Free(slots, hw, w) && !Free(slots, hw, w as int - 1)
    ensures w in holes
  {
    assert InMap(holes, w);
    var o :| o in holes && o <= w < o + holes[o];
    RunOf(slots, hw, holes, o);
    var p: int := w - 1;
    assert o <= p ==> Free(slots, hw, p);
  }

  // ---- Freeing ----

  /** `n` words from `off` are taken by whole slots. */
  ghost predicate Block(slots: map<nat, nat>, off: nat, n: nat) {
    && 0 < n
    && (forall w | off <= w < off + n :: InMap(slots, w))
    && (forall o | o in slots :: o + slots[o] <= off || off + n <= o || (off <= o && o + slots[o] <= off + n))
  }

  /** The slots outside a block. */
  ghost function Outside(slots: map<nat, nat>, off: nat, n: nat): map<nat, nat> {
    map o | o in slots && !(off <= o < off + n) :: slots[o]
  }

  lemma FreedWords(slots: map<nat, nat>, hw: nat, off: nat, n: nat, s: map<nat, nat>)
    requires SlotsOk(slots, hw) && Block(slots, off, n) && s == Outside(slots, off, n)
    ensures START <= off < off + n <= hw && SlotsOk(s, hw)
    ensures forall w: int {:trigger InMap(s, w)} {:trigger InMap(slots, w)} ::
      InMap(s, w) <==> InMap(slots, w) && !(off <= w < off + n)
    ensures FreeGrows(slots, hw, s, hw, off, n)
  {
    var last: int := off + n - 1;
    assert InMap(slots, off) && InMap(slots, last);
    forall w: int ensures InMap(s, w) <==> InMap(slots, w) && !(off <= w < off + n) {
      if InMap(slots, w) && !(off <= w < off + n) {
        var o :| o in slots && o <= w < o + slots[o];
        assert o in s;
      }
      if InMap(s, w) {
        var o :| o in s && o <= w < o + s[o];
        assert o in slots;
      }
    }
  }

  /** From `s` to `t`, exactly the words `off..off + n` become free. */
  ghost predicate FreeGrows(s: map<nat, nat>, hw: nat, t: map<nat, nat>, hw': nat, off: nat, n: nat) {
    forall w: int :: Free(t, hw', w) <==> Free(s, hw, w) || off <= w < off + n
  }

  /** A free word right before a block ends the hole before it, which is the last one to start there. */
  lemma HoleBefore(slots: map<nat, nat>, hw: nat, holes: map<nat, nat>, off: nat, p: nat)
    requires HolesOk(slots, hw, holes) && !Free(slots, hw, off) && Free(slots, hw, off as int - 1)
    requires p in holes && p < off && forall q | q in holes && q < off :: q <= p
    ensures p + holes[p] == off
  {
    var w: int := off - 1;
    assert InMap(holes, w);
    var h :| h in holes && h <= w < h + holes[h];
    RunOf(slots, hw, holes, h);
    RunOf(slots, hw, holes, p);
    var q: int, e: int := p - 1, h + holes[h];
    assert h <= q < e ==> Free(slots, hw, q);
    assert h <= off < e ==> Free(slots, hw, off);
  }

  /** The run of free words a freed block joins. */
  ghost predicate Joined(slots: map<nat, nat>, hw: nat, holes: map<nat, nat>, off: nat, n: nat, lo: nat, hi: nat) {
    && (lo == off || (lo in holes && lo + holes[lo] == off)) && (lo == off ==> !Free(slots, hw, off as int - 1))
    && (hi == off + n || (off + n in holes && hi == off + n + holes[off + n]))
      && (hi == off + n ==> !Free(slots, hw, off + n))
  }

  /** A freed block and the holes next to it become one hole. */
  lemma HolesMerge(slots: map<nat, nat>, hw: nat, holes: map<nat, nat>, off: nat, n: nat, lo: nat, hi: nat,
                   s: map<nat, nat>, m: map<nat, nat>)
    requires HolesOk(slots, hw, holes) && Joined(slots, hw, holes, off, n, lo, hi) && lo <= off < off + n <= hi
    requires FreeGrows(slots, hw, s, hw, off, n) && BlockTaken(slots, hw, off, n)
    requires m == (holes - {lo} - {off + n})[lo := hi - lo]
    ensures HolesOk(s, hw, m)
    ensures hi <= hw || hi == off + n
  {
    hide InMap, Free, EdgesOk, WordsOk, Joined;
    HolesAreApart(slots, hw, holes);
    assert EdgesOk(s, hw, m) by {
      MergedEdges(slots, hw, holes, off, n, lo, hi, s, m);
    }
    MergedWords(slots, hw, holes, off, n, lo, hi, m);
    MergedFree(slots, hw, holes, off, n, s, m);
  }

  ghost predicate BlockTaken(slots: map<nat, nat>, hw: nat, off: nat, n: nat) {
    forall w: int | off <= w < off + n :: !Free(slots, hw, w)
  }

  lemma MergedFree(slots: map<nat, nat>, hw: nat, holes: map<nat, nat>, off: nat, n: nat, s: map<nat, nat>,
      m: map<nat, nat>)
    requires WordsOk(slots, hw, holes) && FreeGrows(slots, hw, s, hw, off, n)
    requires forall w: int {:trigger InMap(m, w)} :: InMap(m, w) <==> InMap(holes, w) || off <= w < off + n
    ensures WordsOk(s, hw, m)
  {
    hide InMap, Free;
  }

  lemma MergedWords(slots: map<nat, nat>, hw: nat, holes: map<nat, nat>, off: nat, n: nat, lo: nat, hi: nat,
      m: map<nat, nat>)
    requires HolesOk(slots, hw, holes) && Joined(slots, hw, holes, off, n, lo, hi) && lo <= off && off + n <= hi
    requires 0 < n
    requires m == (holes - {lo} - {off + n})[lo := hi - lo] && BlockTaken(slots, hw, off, n)
    ensures forall w: int {:trigger InMap(m, w)} {:trigger InMap(holes, w)} :: InMap(m, w) <==>
      InMap(holes, w) || off <= w < off + n
    ensures hi <= hw || hi == off + n
  {
    hide InMap, Free, EdgesOk;
    assert off !in holes by {
      if off in holes {
        RunOf(slots, hw, holes, off);
      }
      assert !Free(slots, hw, off);
    }
    var with := holes[off := n];
    WordsWith(holes, off, n, with);
    var right := with;
    if off + n in holes {
      RunOf(slots, hw, holes, off + n);
      right := (with - {off + n})[off := n + holes[off + n]];
      JoinWords(with, off, right);
    }
    assert off + n in holes ==> Free(slots, hw, off + n);
    if lo != off {
      RunOf(slots, hw, holes, lo);
      JoinWords(right, lo, m);
    } else {
      assert m == right;
    }
  }

  lemma MergedEdges(slots: map<nat, nat>, hw: nat, holes: map<nat, nat>, off: nat, n: nat, lo: nat, hi: nat,
                    s: map<nat, nat>, m: map<nat, nat>)
    requires HolesOk(slots, hw, holes) && Joined(slots, hw, holes, off, n, lo, hi) && Apart(holes)
    requires lo <= off < off + n <= hi
    requires FreeGrows(slots, hw, s, hw, off, n) && BlockTaken(slots, hw, off, n)
    requires m == (holes - {lo} - {off + n})[lo := hi - lo]
    ensures EdgesOk(s, hw, m)
  {
    hide InMap, Free, WordsOk;
    forall o | o in m ensures 0 < m[o] && !Free(s, hw, o as int - 1) && !Free(s, hw, o + m[o]) {
      if o != lo {
        OtherEdges(slots, hw, holes, off, n, lo, hi, s, o);
      }
    }
  }

  lemma OtherEdges(slots: map<nat, nat>, hw: nat, holes: map<nat, nat>, off: nat, n: nat, lo: nat, hi: nat,
      s: map<nat, nat>, o: nat)
    requires HolesOk(slots, hw, holes) && Joined(slots, hw, holes, off, n, lo, hi) && Apart(holes)
    requires lo <= off < off + n <= hi
    requires FreeGrows(slots, hw, s, hw, off, n) && BlockTaken(slots, hw, off, n)
    requires o in holes && o != lo && o != off + n
    ensures !Free(s, hw, o as int - 1) && !Free(s, hw, o + holes[o])
  {
    hide InMap, Free, WordsOk;
    RunOf(slots, hw, holes, o);
    var before: int, last: int, end: int := o - 1, o + holes[o] - 1, o + holes[o];
    assert Free(slots, hw, last) && Free(slots, hw, o);
    assert !Free(slots, hw, before) && !Free(slots, hw, end);
    hide EdgesOk;
    assert !(off <= before < off + n);
    assert !(off <= end < off + n);
  }

  /** A hole that reaches the high-water mark gives its words back. */
  lemma Retreat(slots: map<nat, nat>, hw: nat, holes: map<nat, nat>, lo: nat, m: map<nat, nat>)
    requires SlotsOk(slots, hw) && HolesOk(slots, hw, holes) && lo in holes && lo + holes[lo] == hw && m == holes - {lo}
    ensures Canonical(slots, lo, m)
  {
    hide InMap;
    RunOf(slots, hw, holes, lo);
    SlotsBelow(slots, hw, holes, lo);
    assert EdgesOk(slots, lo, m);
    assert WordsOk(slots, lo, m) by {
      hide EdgesOk;
      HolesAreApart(slots, hw, holes);
      WordsWithout(holes, lo, m);
    }
  }

  lemma SlotsBelow(slots: map<nat, nat>, hw: nat, holes: map<nat, nat>, lo: nat)
    requires SlotsOk(slots, hw) && HolesOk(slots, hw, holes) && lo in holes && lo + holes[lo] == hw
    ensures SlotsOk(slots, lo)
  {
    hide InMap;
    RunOf(slots, hw, holes, lo);
    forall o | o in slots ensures o + slots[o] <= lo {
      var w: int := o + slots[o] - 1;
      Covers(slots, o, w);
      assert lo <= w < hw ==> Free(slots, hw, w);
    }
  }

  /** Freeing a block: its run becomes one hole, or gives its words back at the top. */
  lemma FreeKeeps(slots: map<nat, nat>, hw: nat, holes: map<nat, nat>, off: nat, n: nat, lo: nat, hi: nat)
    requires Canonical(slots, hw, holes) && Block(slots, off, n) && Joined(slots, hw, holes, off, n, lo, hi)
    requires lo <= off && off + n <= hi
    ensures START <= off && hi <= hw
    ensures hi == hw ==> Canonical(Outside(slots, off, n), lo, holes - {lo} - {off + n})
    ensures hi < hw ==> Canonical(Outside(slots, off, n), hw, (holes - {lo} - {off + n})[lo := hi - lo])
  {
    hide HolesOk, InMap;
    var s, m := Outside(slots, off, n), (holes - {lo} - {off + n})[lo := hi - lo];
    FreedWords(slots, hw, off, n, s);
    HolesMerge(slots, hw, holes, off, n, lo, hi, s, m);
    if hi == hw {
      Retreat(s, hw, m, lo, holes - {lo} - {off + n});
    }
  }

  // ---- Taking ----

  /** Taking the first `n` words of a hole, or all of it. */
  lemma TakeKeeps(slots: map<nat, nat>, hw: nat, holes: map<nat, nat>, o: nat, n: nat)
    requires Canonical(slots, hw, holes) && o in holes && 0 < n <= holes[o]
    ensures o !in slots
    ensures n == holes[o] ==> Canonical(slots[o := n], hw, holes - {o})
    ensures n < holes[o] ==> Canonical(slots[o := n], hw, (holes - {o})[o + n := holes[o] - n])
  {
    hide InMap;
    TakeSlot(slots, hw, holes, o, n);
    var s, rest := slots[o := n], holes - {o};
    WordsWith(slots, o, n, s);
    RunOf(slots, hw, holes, o);
    assert FreeGrows(s, hw, slots, hw, o, n) && BlockTaken(s, hw, o, n);
    var m := if n == holes[o] then rest else rest[o + n := holes[o] - n];
    TakenWords(slots, hw, holes, o, n, m);
    HolesAreApart(slots, hw, holes);
    TakenEdges(slots, hw, holes, o, n, s, m);
    assert WordsOk(s, hw, m) by {
      hide EdgesOk, Apart, SlotsOk;
    }
  }

  lemma TakenWords(slots: map<nat, nat>, hw: nat, holes: map<nat, nat>, o: nat, n: nat, m: map<nat, nat>)
    requires HolesOk(slots, hw, holes) && o in holes && 0 < n <= holes[o]
    requires m == if n == holes[o] then holes - {o} else (holes - {o})[o + n := holes[o] - n]
    ensures forall w: int {:trigger InMap(m, w)} {:trigger InMap(holes, w)} :: InMap(m, w) <==>
      InMap(holes, w) && !(o <= w < o + n)
  {
    hide InMap, Free, EdgesOk, WordsOk;
    HolesAreApart(slots, hw, holes);
    var rest := holes - {o};
    WordsWithout(holes, o, rest);
    forall w: int | o <= w < o + holes[o] ensures InMap(holes, w) {
      Covers(holes, o, w);
    }
    if n < holes[o] {
      WordsWith(rest, o + n, holes[o] - n, m);
    }
  }

  lemma TakenEdges(slots: map<nat, nat>, hw: nat, holes: map<nat, nat>, o: nat, n: nat, s: map<nat, nat>,
      m: map<nat, nat>)
    requires HolesOk(slots, hw, holes) && Apart(holes) && o in holes && 0 < n <= holes[o]
    requires FreeGrows(s, hw, slots, hw, o, n) && BlockTaken(s, hw, o, n)
    requires m == if n == holes[o] then holes - {o} else (holes - {o})[o + n := holes[o] - n]
    ensures EdgesOk(s, hw, m)
  {
    hide InMap, Free, WordsOk;
    forall p | p in m ensures 0 < m[p] && !Free(s, hw, p as int - 1) && !Free(s, hw, p + m[p]) {
      if p != o + n {
        assert p in holes;
      } else {
        var q: int := p - 1;
        assert !Free(s, hw, q);
      }
    }
  }

  lemma TakeSlot(slots: map<nat, nat>, hw: nat, holes: map<nat, nat>, o: nat, n: nat)
    requires Canonical(slots, hw, holes) && o in holes && 0 < n <= holes[o]
    ensures o !in slots && SlotsOk(slots[o := n], hw)
  {
    hide InMap;
    RunOf(slots, hw, holes, o);
    forall p | p in slots ensures p + slots[p] <= o || o + n <= p {
      Covers(slots, p, p);
      assert o <= p < o + n ==> Free(slots, hw, p);
      if p <= o < p + slots[p] {
        Covers(slots, p, o);
      }
      assert Free(slots, hw, o);
    }
  }

  /** Taking `n` words above the high-water mark. */
  lemma GrowKeeps(slots: map<nat, nat>, hw: nat, holes: map<nat, nat>, n: nat)
    requires Canonical(slots, hw, holes) && 0 < n
    ensures hw !in slots && Canonical(slots[hw := n], hw + n, holes)
  {
    hide InMap;
    var s := slots[hw := n];
    WordsWith(slots, hw, n, s);
    assert forall w: int :: Free(s, hw + n, w) <==> Free(slots, hw, w) by {
      forall w: int ensures Free(s, hw + n, w) <==> Free(slots, hw, w) {
        if w >= hw {
          AboveSlots(slots, hw, w);
        }
      }
    }
  }

  lemma AboveSlots(slots: map<nat, nat>, hw: nat, w: int)
    requires SlotsOk(slots, hw) && hw <= w
    ensures !InMap(slots, w)
  {
  }

  /** Leaving a gap above the last slot and putting the next slot after it. */
  lemma SkipKeeps(slots: map<nat, nat>, hw: nat, holes: map<nat, nat>, a: nat, n: nat)
    requires Canonical(slots, hw, holes) && 0 < n && hw < a
    ensures a !in slots && Canonical(slots[a := n], a + n, holes[hw := a - hw])
  {
    hide InMap;
    var s, m := slots[a := n], holes[hw := a - hw];
    WordsWith(slots, a, n, s);
    assert hw !in holes by {
      if hw in holes {
        RunOf(slots, hw, holes, hw);
      }
    }
    WordsWith(holes, hw, a - hw, m);
    GapFree(slots, hw, a, n, s);
    assert hw > START ==> !Free(s, a + n, hw - 1);
    assert EdgesOk(s, a + n, m) by {
      forall o | o in m ensures 0 < m[o] && !Free(s, a + n, o as int - 1) && !Free(s, a + n, o + m[o]) {
        if o != hw {
          RunOf(slots, hw, holes, o);
          TopTaken(slots, hw, holes, o);
        }
      }
    }
    assert WordsOk(s, a + n, m);
  }

  lemma GapFree(slots: map<nat, nat>, hw: nat, a: nat, n: nat, s: map<nat, nat>)
    requires SlotsOk(slots, hw) && 0 < n && hw < a && s == slots[a := n] && a !in slots
    ensures FreeGrows(slots, hw, s, a + n, hw, a - hw)
  {
    WordsWith(slots, a, n, s);
    hide InMap;
    forall w: int ensures Free(s, a + n, w) <==> Free(slots, hw, w) || hw <= w < a {
      if w >= hw {
        AboveSlots(slots, hw, w);
      }
    }
  }

  /** No hole ends at the high-water mark. */
  lemma TopTaken(slots: map<nat, nat>, hw: nat, holes: map<nat, nat>, o: nat)
    requires Canonical(slots, hw, holes) && o in holes
    ensures o + holes[o] < hw
  {
    hide InMap;
    RunOf(slots, hw, holes, o);
    var last: int := hw - 1;
    assert o + holes[o] == hw ==> Free(slots, hw, last);
  }
}
