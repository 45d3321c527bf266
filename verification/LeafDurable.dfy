/**
 Reuse of leaf slots across power loss (crates/enchudb-engine/src/leaf_store.rs, `retire`, `durable_begin`,
 `durable_end`, around `write_out_body` of crates/enchudb-engine/src/engine.rs): any number of writers and of
 write-outs, one atomic step at a time.

 A cell of a column names a leaf slot. A writer changes the cell, then marks it dirty, then retires the slot the
 cell named before. The operating system may put a cell on disk at any moment. A write-out goes over the columns: it
 takes the dirty marks of a column and puts the cells it took on disk one by one, or, if the column has no dirty
 mark, it passes over the column. Power loss leaves what is on disk.

 Whether a second write-out may begin before the first has ended is fixed for a run.
 */
module LeafDurable {
  import opened Wrappers
  import opened LeafStores

  /** The cells a write-out has taken from a column and not put on disk yet; with `all`, without taking the marks. */
  datatype Flight = Flight(id: nat, left: set<nat>, all: bool)

  /**
   A write-out under way: its token, whether it writes every cell, the columns it is done with, and the cells that
   were in flight when it passed over their column.
   */
  datatype WriteOut = WriteOut(token: nat, all: bool, failed: bool, done: set<nat>, passed: set<nat>)

  /**
   `column` gives the column of each cell. `held` are the slots not in the free list, `loose` those inserted but not
   in a cell yet, `parted` those taken out of a cell but not retired yet, with that cell. `unmarked` are cells changed
   but not marked dirty yet.
   */
  datatype State = State(
    overlap: bool, column: seq<nat>, mem: seq<Option<nat>>, disk: seq<Option<nat>>,
    held: set<nat>, loose: set<nat>, parted: map<nat, nat>, unmarked: set<nat>, dirty: set<nat>,
    pending: seq<(nat, nat, nat)>, epoch: nat, outs: map<nat, WriteOut>, flights: map<nat, Flight>)

  datatype Step =
    | Insert(slot: nat)
    | Tie(cell: nat, slot: nat)
    | Untie(cell: nat)
    | Mark(cell: nat)
    | Retire(slot: nat, size: nat)
    | Refuse(slot: nat)
    | OsWrites(cell: nat)
    | Begin(id: nat, all: bool)
    | Pass(id: nat, k: nat)
    | Take(id: nat, k: nat)
    | Land(cell: nat)
    | EndFlush(k: nat)
    | FailFlush(k: nat)
    | End(id: nat)
    | Fail(id: nat)
    | PowerLoss

  ghost predicate IsCell(s: State, c: nat) {
    c < |s.mem| == |s.disk| == |s.column|
  }

  ghost function CellsOf(s: State, k: nat): set<nat> {
    set c | 0 <= c < |s.column| && s.column[c] == k
  }

  ghost predicate Enabled(s: State, a: Step) {
    match a
    case Insert(x) => x !in s.held
    case Tie(c, x) => IsCell(s, c) && x in s.loose
    case Untie(c) => IsCell(s, c)
    case Mark(c) => c in s.unmarked
    case Retire(x, _) => x in s.parted && s.parted[x] !in s.unmarked
    case Refuse(x) => x in s.loose
    case OsWrites(c) => IsCell(s, c)
    case Begin(id, _) => id !in s.outs && (s.overlap || s.outs == map[])
    case Pass(id, k) => id in s.outs && !s.outs[id].all && CellsOf(s, k) !! s.dirty
      && !(k in s.flights && s.flights[k].id == id)
    case Take(id, k) => id in s.outs && k !in s.flights
    case Land(c) => IsCell(s, c) && s.column[c] in s.flights && c in s.flights[s.column[c]].left
    case EndFlush(k) => k in s.flights && s.flights[k].left == {} && s.flights[k].id in s.outs
    case FailFlush(k) => k in s.flights && s.flights[k].id in s.outs
    case End(id) => id in s.outs && !s.outs[id].failed && !InFlight(s, id)
      && forall c | 0 <= c < |s.column| :: s.column[c] in s.outs[id].done
    case Fail(id) => id in s.outs && !InFlight(s, id)
    case PowerLoss => true
  }

  ghost predicate InFlight(s: State, id: nat) {
    exists k :: k in s.flights && s.flights[k].id == id
  }

  ghost function Named(cells: seq<Option<nat>>): set<nat> {
    set c | 0 <= c < |cells| && cells[c].Some? :: cells[c].value
  }

  /** What a cell named before it was changed. */
  ghost function Was(s: State, c: nat): map<nat, nat>
    requires c < |s.mem|
  {
    if s.mem[c].Some? then map[s.mem[c].value := c] else map[]
  }

  ghost function Put(s: State, c: nat, v: Option<nat>): State
    requires IsCell(s, c)
  {
    s.(mem := s.mem[c := v], loose := s.loose - (if v.Some? then {v.value} else {}), parted := s.parted + Was(s, c),
       unmarked := s.unmarked + {c})
  }

  /** The cell reaches the disk. */
  ghost function Reaches(s: State, c: nat): State
    requires IsCell(s, c)
  {
    s.(disk := s.disk[c := s.mem[c]])
  }

  /** The cells of a column another write-out has taken the marks of and not put on disk. */
  ghost function Unlanded(s: State, k: nat): set<nat> {
    if k in s.flights && !s.flights[k].all then s.flights[k].left else {}
  }

  ghost function Done(s: State, id: nat, k: nat, passed: set<nat>): map<nat, WriteOut>
    requires id in s.outs
  {
    s.outs[id := s.outs[id].(done := s.outs[id].done + {k}, passed := s.outs[id].passed - CellsOf(s, k) + passed)]
  }

  ghost function Do(s: State, a: Step): State
    requires Enabled(s, a)
  {
    match a
    case Insert(x) => s.(held := s.held + {x}, loose := s.loose + {x})
    case Tie(c, x) => Put(s, c, Some(x))
    case Untie(c) => Put(s, c, None)
    case Mark(c) => s.(unmarked := s.unmarked - {c}, dirty := s.dirty + {c})
    case Retire(x, n) => s.(parted := s.parted - {x}, pending := s.pending + [(s.epoch, x, n)])
    case Refuse(x) => s.(held := s.held - {x}, loose := s.loose - {x})
    case OsWrites(c) => Reaches(s, c)
    case Begin(id, all) => s.(outs := s.outs[id := WriteOut(s.epoch, all, false, {}, {})], epoch := s.epoch + 1)
    case Pass(id, k) => s.(outs := Done(s, id, k, Unlanded(s, k)))
    case Take(id, k) =>
      if s.outs[id].all then s.(flights := s.flights[k := Flight(id, CellsOf(s, k), true)])
      else s.(flights := s.flights[k := Flight(id, CellsOf(s, k) * s.dirty, false)], dirty := s.dirty - CellsOf(s, k))
    case Land(c) =>
      var f := s.flights[s.column[c]];
      Reaches(s, c).(flights := s.flights[s.column[c] := f.(left := f.left - {c})])
    case EndFlush(k) => s.(outs := Done(s, s.flights[k].id, k, {}), flights := s.flights - {k})
    case FailFlush(k) =>
      s.(outs := s.outs[s.flights[k].id := s.outs[s.flights[k].id].(failed := true)], flights := s.flights - {k},
        dirty := s.dirty + Unlanded(s, k))
    case End(id) =>
      s.(held := s.held - Due(s.pending, s.outs[id].token),
         pending := s.pending[DueCount(s.pending, s.outs[id].token)..], outs := s.outs - {id})
    case Fail(id) => s.(outs := s.outs - {id})
    case PowerLoss => State(s.overlap, s.column, s.disk, s.disk, Named(s.disk), {}, map[], {}, {}, [], 0, map[], map[])
  }

  ghost predicate Start(s: State) {
    && |s.mem| == |s.disk| == |s.column| && (forall c | 0 <= c < |s.mem| :: s.mem[c].None? && s.disk[c].None?)
    && s.held == {} && s.loose == {} && s.parted == map[] && s.unmarked == {} && s.dirty == {} && s.pending == []
    && s.outs == map[] && s.flights == map[]
  }

  ghost predicate Run(states: seq<State>, steps: seq<Step>) {
    && |states| == |steps| + 1 && Start(states[0])
    && forall i | 0 <= i < |steps| :: Enabled(states[i], steps[i]) && states[i + 1] == Do(states[i], steps[i])
  }

  // ---- Invariant ----

  ghost function Waits(pending: seq<(nat, nat, nat)>): set<nat> {
    set x | x in pending :: x.1
  }

  ghost predicate NamedOnce(cells: seq<Option<nat>>) {
    forall c, d | 0 <= c < d < |cells| && cells[c].Some? :: cells[c] != cells[d]
  }

  /** Every slot held has one place, and one only. */
  ghost predicate OnePlace(s: State) {
    && NamedOnce(s.mem)
    && s.loose !! s.parted.Keys !! Waits(s.pending) !! Named(s.mem)
    && s.loose + s.parted.Keys + Waits(s.pending) + Named(s.mem) == s.held
  }

  /** A slot named on disk is in the same cell in memory, or out of every cell and not reused. */
  ghost predicate OnDisk(s: State) {
    && |s.mem| == |s.disk| == |s.column| && NamedOnce(s.disk)
    && forall c | 0 <= c < |s.disk| && s.disk[c].Some? ::
      s.mem[c] == s.disk[c] || s.disk[c].value in s.parted.Keys + Waits(s.pending)
  }

  /** The cell on disk names what it names in memory, or a slot that has just been taken out of it. */
  ghost predicate Fresh(s: State, c: nat) {
    IsCell(s, c) && s.disk[c].Some? ==>
      s.mem[c] == s.disk[c] || (s.disk[c].value in s.parted && s.parted[s.disk[c].value] == c && c in s.unmarked)
  }

  /** What memory and disk differ in is marked, or in flight. */
  ghost predicate DirtyOk(s: State) {
    forall c | 0 <= c < |s.column| :: c in s.dirty || c in Unlanded(s, s.column[c]) || Fresh(s, c)
  }

  ghost predicate FlightsOk(s: State) {
    && Waiting(s.pending, s.epoch) && (forall id | id in s.outs :: s.outs[id].token < s.epoch)
    && forall k | k in s.flights :: s.flights[k].id in s.outs && s.flights[k].left <= CellsOf(s, k)
  }

  /** The cell on disk names no slot that a write-out with this token will free. */
  ghost predicate Clear(s: State, c: nat, token: nat) {
    c < |s.disk| && s.disk[c].Some? ==> s.disk[c].value !in Due(s.pending, token)
  }

  /** A write-out has seen to every cell of the columns it is done with, but for those it passed over in flight. */
  ghost predicate SeenTo(s: State) {
    && (forall id, c | id in s.outs && 0 <= c < |s.column|
        && s.column[c] in s.outs[id].done && c !in s.outs[id].passed :: Clear(s, c, s.outs[id].token))
    && (forall k, c | k in s.flights && s.flights[k].id in s.outs
        && c in CellsOf(s, k) && c !in s.flights[k].left :: Clear(s, c, s.outs[s.flights[k].id].token))
  }

  ghost predicate Inv(s: State) {
    OnePlace(s) && OnDisk(s) && DirtyOk(s) && FlightsOk(s) && SeenTo(s)
  }

  lemma StartInv(s: State)
    requires Start(s)
    ensures Inv(s)
  {
  }

  lemma NamedAfter(cells: seq<Option<nat>>, c: nat, v: Option<nat>)
    requires c < |cells| && NamedOnce(cells) && (v.Some? ==> v.value !in Named(cells))
    ensures NamedOnce(cells[c := v])
    ensures Named(cells[c := v]) ==
      Named(cells) - (if cells[c].Some? then {cells[c].value} else {}) + if v.Some? then {v.value} else {}
  {
    var after := cells[c := v];
    forall x | x in Named(cells) && Some(x) != cells[c] ensures x in Named(after) {
      var d :| 0 <= d < |cells| && cells[d] == Some(x);
      assert after[d] == Some(x);
    }
    forall x | x in Named(after) && Some(x) != v ensures x in Named(cells) && Some(x) != cells[c] {
      var d :| 0 <= d < |after| && after[d] == Some(x);
      assert cells[d] == Some(x);
    }
    if v.Some? {
      assert after[c] == v;
    }
  }

  lemma PutPlace(s: State, c: nat, v: Option<nat>)
    requires OnePlace(s) && IsCell(s, c) && (v.Some? ==> v.value in s.loose)
    ensures OnePlace(Put(s, c, v))
  {
    NamedAfter(s.mem, c, v);
    if s.mem[c].Some? {
      assert s.mem[c].value in Named(s.mem);
    }
  }

  lemma PutInv(s: State, c: nat, v: Option<nat>)
    requires Inv(s) && IsCell(s, c) && (v.Some? ==> v.value in s.loose)
    ensures Inv(Put(s, c, v))
  {
    var t := Put(s, c, v);
    PutPlace(s, c, v);
    if s.mem[c].Some? {
      assert s.mem[c].value in Named(s.mem);
    }
    assert SameOuts(s, t);
    forall d | 0 <= d < |t.column| ensures d in t.dirty || d in Unlanded(t, t.column[d]) || Fresh(t, d) {
      assert Fresh(s, d) ==> Fresh(t, d);
    }
  }

  ghost predicate SameOuts(s: State, t: State) {
    && s.column == t.column && s.disk == t.disk && s.outs == t.outs && s.flights == t.flights && s.pending == t.pending
  }

  lemma WaitsMore(p: seq<(nat, nat, nat)>, x: (nat, nat, nat))
    ensures Waits(p + [x]) == Waits(p) + {x.1}
  {
    forall y | y in p ensures y in p + [x] {
    }
    assert (p + [x])[|p|] == x;
  }

  lemma RetireInv(s: State, x: nat, n: nat)
    requires Inv(s) && Enabled(s, Retire(x, n))
    ensures Inv(Do(s, Retire(x, n)))
  {
    var t := Do(s, Retire(x, n));
    WaitsMore(s.pending, (s.epoch, x, n));
    assert Waiting(t.pending, t.epoch) by {
      forall i | 0 <= i < |s.pending| ensures s.pending[i].1 != x {
        assert s.pending[i] in s.pending;
      }
    }
    forall token: nat | token < s.epoch ensures Due(t.pending, token) == Due(s.pending, token) {
    }
    forall c | 0 <= c < |t.column| ensures c in t.dirty || c in Unlanded(t, t.column[c]) || Fresh(t, c) {
      assert Fresh(s, c) ==> Fresh(t, c);
    }
  }

  lemma DueWaits(p: seq<(nat, nat, nat)>, token: nat)
    ensures Due(p, token) <= Waits(p)
  {
  }

  /** What memory names is not due to anybody, and neither is a slot still in a writer's hands. */
  lemma FreshClear(s: State, c: nat, token: nat)
    requires OnePlace(s) && OnDisk(s) && c < |s.column| && Fresh(s, c)
    ensures Clear(s, c, token)
  {
    DueWaits(s.pending, token);
    if s.disk[c].Some? && s.mem[c] == s.disk[c] {
      assert s.disk[c].value in Named(s.mem);
    }
  }

  lemma ReachPlace(s: State, c: nat)
    requires OnePlace(s) && OnDisk(s) && IsCell(s, c)
    ensures OnePlace(Reaches(s, c)) && OnDisk(Reaches(s, c))
  {
    if s.mem[c].Some? {
      assert s.mem[c].value in Named(s.mem);
    }
  }

  lemma ReachInv(s: State, c: nat)
    requires Inv(s) && IsCell(s, c)
    ensures Inv(Reaches(s, c))
  {
    ReachPlace(s, c);
    var t := Reaches(s, c);
    assert Fresh(t, c);
    forall token ensures Clear(t, c, token) {
      FreshClear(t, c, token);
    }
    forall d, token | d != c && Clear(s, d, token) ensures Clear(t, d, token) {
    }
    hide OnePlace, OnDisk;
    forall d | 0 <= d < |t.column| ensures d in t.dirty || d in Unlanded(t, t.column[d]) || Fresh(t, d) {
      assert d != c && Fresh(s, d) ==> Fresh(t, d);
    }
  }

  lemma LandInv(s: State, c: nat)
    requires Inv(s) && Enabled(s, Land(c))
    ensures Inv(Do(s, Land(c)))
  {
    ReachInv(s, c);
    var t, u := Reaches(s, c), Do(s, Land(c));
    assert Fresh(t, c);
    forall token ensures Clear(t, c, token) {
      FreshClear(t, c, token);
    }
    forall d, token | Clear(t, d, token) ensures Clear(u, d, token) {
    }
    hide OnePlace, OnDisk;
    forall d | 0 <= d < |u.column| ensures d in u.dirty || d in Unlanded(u, u.column[d]) || Fresh(u, d) {
      assert Fresh(t, d) ==> Fresh(u, d);
    }
  }

  lemma TakeSeen(s: State, id: nat, k: nat)
    requires Inv(s) && Enabled(s, Take(id, k))
    ensures SeenTo(Do(s, Take(id, k)))
  {
    var t := Do(s, Take(id, k));
    forall c, token ensures Clear(s, c, token) ==> Clear(t, c, token) {
    }
    forall c | c in CellsOf(s, k) && c !in t.flights[k].left ensures Clear(t, c, t.outs[id].token) {
      FreshClear(s, c, s.outs[id].token);
    }
  }

  lemma TakeInv(s: State, id: nat, k: nat)
    requires Inv(s) && Enabled(s, Take(id, k))
    ensures Inv(Do(s, Take(id, k)))
  {
    TakeSeen(s, id, k);
    var t := Do(s, Take(id, k));
    assert OnePlace(t) && OnDisk(t);
    hide OnePlace, OnDisk, SeenTo;
    forall d | 0 <= d < |t.column| ensures d in t.dirty || d in Unlanded(t, t.column[d]) || Fresh(t, d) {
      assert Fresh(s, d) ==> Fresh(t, d);
    }
  }

  lemma PassInv(s: State, id: nat, k: nat)
    requires Inv(s) && Enabled(s, Pass(id, k))
    ensures Inv(Do(s, Pass(id, k)))
  {
    var t := Do(s, Pass(id, k));
    forall c, token ensures Clear(s, c, token) ==> Clear(t, c, token) {
    }
    forall c | c in CellsOf(s, k) && c !in Unlanded(s, k) ensures Clear(t, c, t.outs[id].token) {
      FreshClear(s, c, s.outs[id].token);
    }
    hide OnePlace, OnDisk;
    forall d | 0 <= d < |t.column| ensures d in t.dirty || d in Unlanded(t, t.column[d]) || Fresh(t, d) {
      assert Fresh(s, d) ==> Fresh(t, d);
    }
  }

  lemma EndFlushInv(s: State, k: nat)
    requires Inv(s) && Enabled(s, EndFlush(k))
    ensures Inv(Do(s, EndFlush(k)))
  {
    var t := Do(s, EndFlush(k));
    forall c, token ensures Clear(s, c, token) ==> Clear(t, c, token) {
    }
    hide OnePlace, OnDisk;
    forall d | 0 <= d < |t.column| ensures d in t.dirty || d in Unlanded(t, t.column[d]) || Fresh(t, d) {
      assert Fresh(s, d) ==> Fresh(t, d);
    }
  }

  lemma FailFlushInv(s: State, k: nat)
    requires Inv(s) && Enabled(s, FailFlush(k))
    ensures Inv(Do(s, FailFlush(k)))
  {
    var t := Do(s, FailFlush(k));
    forall c, token ensures Clear(s, c, token) ==> Clear(t, c, token) {
    }
    hide OnePlace, OnDisk;
    forall d | 0 <= d < |t.column| ensures d in t.dirty || d in Unlanded(t, t.column[d]) || Fresh(t, d) {
      assert Fresh(s, d) ==> Fresh(t, d);
    }
  }

  /** The slots due are the first ones of the queue. */
  lemma DueFirst(p: seq<(nat, nat, nat)>, epoch: nat, token: nat, j: nat)
    requires Waiting(p, epoch) && j < |p|
    ensures p[j].0 <= token <==> j < DueCount(p, token)
    ensures p[j].1 in Due(p, token) <==> p[j].0 <= token
  {
    hide DueCount;
    if p[j].1 in Due(p, token) {
      var i :| 0 <= i < |p| && p[i].1 == p[j].1 && p[i].0 <= token;
    }
    assert p[j] in p;
  }

  /** What is left of the queue: all but the slots due. */
  lemma LeftWaiting(p: seq<(nat, nat, nat)>, epoch: nat, token: nat, rest: seq<(nat, nat, nat)>)
    requires Waiting(p, epoch) && rest == p[DueCount(p, token)..]
    ensures Waits(rest) == Waits(p) - Due(p, token)
    ensures Waiting(rest, epoch) && forall x | x in rest :: x in p
  {
    hide DueCount, Due;
    var n := DueCount(p, token);
    forall x | x in Waits(rest) ensures x in Waits(p) && x !in Due(p, token) {
      var i :| 0 <= i < |rest| && rest[i].1 == x;
      assert p[n + i] == rest[i] && p[n + i] in p;
      DueFirst(p, epoch, token, n + i);
    }
    forall x | x in Waits(p) && x !in Due(p, token) ensures x in Waits(rest) {
      var j :| 0 <= j < |p| && p[j].1 == x;
      DueFirst(p, epoch, token, j);
      assert rest[j - n] == p[j];
    }
  }

  /** No cell the write-out passed over in flight still names, on disk, a slot it is about to free. */
  ghost predicate PassedClear(s: State, id: nat) {
    id in s.outs ==> forall c | c in s.outs[id].passed :: Clear(s, c, s.outs[id].token)
  }

  lemma EndPlace(s: State, id: nat)
    requires Inv(s) && Enabled(s, End(id)) && PassedClear(s, id)
    ensures OnePlace(Do(s, End(id))) && OnDisk(Do(s, End(id)))
  {
    var t, token := Do(s, End(id)), s.outs[id].token;
    LeftWaiting(s.pending, s.epoch, token, t.pending);
    DueWaits(s.pending, token);
    forall c | 0 <= c < |s.disk| ensures Clear(s, c, token) {
      assert s.column[c] in s.outs[id].done;
      assert c in s.outs[id].passed || c !in s.outs[id].passed;
    }
    forall c | 0 <= c < |t.disk| && t.disk[c].Some?
      ensures t.mem[c] == t.disk[c] || t.disk[c].value in t.parted.Keys + Waits(t.pending)
    {
      assert Clear(s, c, token);
    }
  }

  lemma FewerDue(p: seq<(nat, nat, nat)>, q: seq<(nat, nat, nat)>, token: nat)
    requires forall x | x in q :: x in p
    ensures Due(q, token) <= Due(p, token)
  {
  }

  lemma FewerSeen(s: State, t: State, id: nat)
    requires SeenTo(s) && t.outs == s.outs - {id} && t.flights == s.flights && t.column == s.column && t.disk == s.disk
    requires forall x | x in t.pending :: x in s.pending
    ensures SeenTo(t)
  {
    forall c, token: nat ensures Clear(s, c, token) ==> Clear(t, c, token) {
      FewerDue(s.pending, t.pending, token);
    }
    hide Clear;
  }

  lemma EndFlights(s: State, t: State, id: nat)
    requires FlightsOk(s) && !InFlight(s, id) && t.outs == s.outs - {id} && t.flights == s.flights
    requires t.column == s.column
    requires t.epoch == s.epoch && Waiting(t.pending, t.epoch)
    ensures FlightsOk(t)
  {
    assert forall k | k in s.flights :: s.flights[k].id != id;
  }

  lemma EndInv(s: State, id: nat)
    requires Inv(s) && Enabled(s, End(id)) && PassedClear(s, id)
    ensures Inv(Do(s, End(id)))
  {
    EndPlace(s, id);
    var t := Do(s, End(id));
    LeftWaiting(s.pending, s.epoch, s.outs[id].token, t.pending);
    FewerSeen(s, t, id);
    EndFlights(s, t, id);
    hide OnePlace, OnDisk, SeenTo, FlightsOk, Due, DueCount;
    forall d | 0 <= d < |t.column| ensures d in t.dirty || d in Unlanded(t, t.column[d]) || Fresh(t, d) {
      assert Fresh(s, d) ==> Fresh(t, d);
    }
  }

  lemma PowerInv(s: State)
    requires Inv(s)
    ensures Inv(Do(s, PowerLoss))
  {
  }

  lemma EasyPlace(s: State, a: Step)
    requires OnePlace(s) && OnDisk(s) && Enabled(s, a) && (a.Insert? || a.Mark? || a.Refuse? || a.Begin? || a.Fail?)
    ensures OnePlace(Do(s, a)) && OnDisk(Do(s, a))
  {
  }

  lemma EasyFlights(s: State, a: Step)
    requires FlightsOk(s) && Enabled(s, a) && (a.Insert? || a.Mark? || a.Refuse? || a.Begin? || a.Fail?)
    ensures FlightsOk(Do(s, a))
  {
  }

  lemma EasyInv(s: State, a: Step)
    requires Inv(s) && Enabled(s, a) && (a.Insert? || a.Mark? || a.Refuse? || a.Begin? || a.Fail?)
    ensures Inv(Do(s, a))
  {
    var t := Do(s, a);
    EasyPlace(s, a);
    EasyFlights(s, a);
    hide OnePlace, OnDisk, FlightsOk, Due;
    forall c, token ensures Clear(s, c, token) ==> Clear(t, c, token) {
    }
    forall d | 0 <= d < |t.column| ensures d in t.dirty || d in Unlanded(t, t.column[d]) || Fresh(t, d) {
      assert d in s.dirty || d in Unlanded(s, s.column[d]) || Fresh(s, d);
    }
  }

  lemma StepInv(s: State, a: Step)
    requires Inv(s) && Enabled(s, a) && (a.End? ==> PassedClear(s, a.id))
    ensures Inv(Do(s, a))
  {
    match a {
      case Insert(x) => EasyInv(s, a);
      case Tie(c, x) => PutInv(s, c, Some(x));
      case Untie(c) => PutInv(s, c, None);
      case Mark(c) => EasyInv(s, a);
      case Retire(x, n) => RetireInv(s, x, n);
      case Refuse(x) => EasyInv(s, a);
      case OsWrites(c) => ReachInv(s, c);
      case Begin(id, all) => EasyInv(s, a);
      case Pass(id, k) => PassInv(s, id, k);
      case Take(id, k) => TakeInv(s, id, k);
      case Land(c) => LandInv(s, c);
      case EndFlush(k) => EndFlushInv(s, k);
      case FailFlush(k) => FailFlushInv(s, k);
      case End(id) => EndInv(s, id);
      case Fail(id) => EasyInv(s, a);
      case PowerLoss => PowerInv(s);
    }
  }

  // ---- What follows for callers ----

  /** No slot a cell names on disk or in memory is in the free list. */
  ghost predicate Safe(s: State) {
    Named(s.disk) <= s.held && Named(s.mem) <= s.held
  }

  lemma InvSafe(s: State)
    requires Inv(s)
    ensures Safe(s)
  {
    forall x | x in Named(s.disk) ensures x in s.held {
      var c :| 0 <= c < |s.disk| && s.disk[c] == Some(x);
      if s.mem[c] == s.disk[c] {
        assert x in Named(s.mem);
      }
    }
  }

  /** The first `n` steps end no write-out that frees what a cell it passed over in flight still names on disk. */
  ghost predicate EndsClear(states: seq<State>, steps: seq<Step>, n: nat) {
    n <= |steps| < |states| && forall k | 0 <= k < n && steps[k].End? :: PassedClear(states[k], steps[k].id)
  }

  lemma {:induction false} RunInv(states: seq<State>, steps: seq<Step>, i: nat)
    requires Run(states, steps) && i < |states| && EndsClear(states, steps, i)
    ensures Inv(states[i])
  {
    if i == 0 {
      StartInv(states[0]);
    } else {
      RunInv(states, steps, i - 1);
      StepInv(states[i - 1], steps[i - 1]);
    }
  }

  /** Freeing what a cell names on disk breaks the promise at once. */
  lemma SafeEnd(s: State, id: nat)
    requires Inv(s) && Enabled(s, End(id)) && Safe(Do(s, End(id)))
    ensures PassedClear(s, id)
  {
    var t := Do(s, End(id));
    forall c | c in s.outs[id].passed ensures Clear(s, c, s.outs[id].token) {
      assert c < |t.disk| && t.disk[c].Some? ==> t.disk[c].value in Named(t.disk);
    }
  }

  lemma {:induction false} SafeClear(states: seq<State>, steps: seq<Step>, n: nat)
    requires Run(states, steps) && n <= |steps| && forall i | 0 <= i < |states| :: Safe(states[i])
    ensures EndsClear(states, steps, n)
  {
    if n > 0 {
      SafeClear(states, steps, n - 1);
      RunInv(states, steps, n - 1);
      var s, a := states[n - 1], steps[n - 1];
      assert Safe(states[n]);
      if a.End? {
        SafeEnd(s, a.id);
      }
    }
  }

  /**
   Over every run, with writers, write-outs and power losses in any order: no slot a cell names on disk is ever in the
   free list if and only if no write-out ends while a cell it passed over in flight names on disk a slot that write-out
   frees.
   */
  lemma NamedOnDiskIsHeld(states: seq<State>, steps: seq<Step>)
    requires Run(states, steps)
    ensures (forall i | 0 <= i < |states| :: Safe(states[i])) <==> EndsClear(states, steps, |steps|)
  {
    if EndsClear(states, steps, |steps|) {
      forall i | 0 <= i < |states| ensures Safe(states[i]) {
        RunInv(states, steps, i);
        InvSafe(states[i]);
      }
    } else if forall i | 0 <= i < |states| :: Safe(states[i]) {
      SafeClear(states, steps, |steps|);
    }
  }

  /** No write-out passes over a column another one has taken the marks of and not put on disk. */
  ghost predicate NoPassInFlight(states: seq<State>, steps: seq<Step>) {
    |steps| < |states| && forall i | 0 <= i < |steps| && steps[i].Pass? :: Unlanded(states[i], steps[i].k) == {}
  }

  ghost predicate NonePassed(s: State) {
    forall id | id in s.outs :: s.outs[id].passed == {}
  }

  lemma {:induction false} NothingPassed(states: seq<State>, steps: seq<Step>, i: nat)
    requires Run(states, steps) && i < |states| && NoPassInFlight(states, steps)
    ensures NonePassed(states[i])
  {
    if i > 0 {
      NothingPassed(states, steps, i - 1);
      var s, a := states[i - 1], steps[i - 1];
      assert a.Pass? ==> Unlanded(s, a.k) == {};
      PassedStep(s, a);
    }
  }

  lemma PassedStep(s: State, a: Step)
    requires Enabled(s, a) && NonePassed(s) && (a.Pass? ==> Unlanded(s, a.k) == {})
    ensures NonePassed(Do(s, a))
  {
  }

  /**
   What a write-out can see to: over every run in which none passes over a column that is in flight, no slot a cell
   names on disk is ever in the free list, and none is handed out again.
   */
  lemma WaitingIsEnough(states: seq<State>, steps: seq<Step>, i: nat)
    requires Run(states, steps) && i < |states| && NoPassInFlight(states, steps)
    ensures Safe(states[i])
    ensures i < |steps| && steps[i].Insert? ==> steps[i].slot !in Named(states[i].disk)
  {
    forall k | 0 <= k < |steps| && steps[k].End? ensures PassedClear(states[k], steps[k].id) {
      NothingPassed(states, steps, k);
    }
    NamedOnDiskIsHeld(states, steps);
    assert i < |steps| ==> Enabled(states[i], steps[i]);
  }

  // ---- Write-outs one at a time, and write-outs that overlap ----

  ghost predicate Alone(s: State) {
    && !s.overlap && (forall i, j | i in s.outs && j in s.outs :: i == j)
    && forall k | k in s.flights :: s.flights[k].id in s.outs
  }

  lemma AloneStep(s: State, a: Step)
    requires Alone(s) && Enabled(s, a)
    ensures Alone(Do(s, a)) && (a.Pass? ==> Unlanded(s, a.k) == {})
  {
  }

  lemma {:induction false} AloneRun(states: seq<State>, steps: seq<Step>, i: nat)
    requires Run(states, steps) && i < |states| && !states[0].overlap
    ensures Alone(states[i])
  {
    if i > 0 {
      AloneRun(states, steps, i - 1);
      AloneStep(states[i - 1], steps[i - 1]);
    }
  }

  lemma {:induction false} RunOverlap(states: seq<State>, steps: seq<Step>, i: nat)
    requires Run(states, steps) && i < |states|
    ensures states[i].overlap == states[0].overlap
  {
    if i > 0 {
      RunOverlap(states, steps, i - 1);
      assert states[i] == Do(states[i - 1], steps[i - 1]);
    }
  }

  ghost predicate Reachable(s: State) {
    exists states, steps :: Run(states, steps) && states[|steps|] == s
  }

  lemma StepReached(s: State, a: Step, t: State)
    requires Reachable(s) && Enabled(s, a) && t == Do(s, a)
    ensures Reachable(t)
  {
    var states, steps :| Run(states, steps) && states[|steps|] == s;
    var states', steps' := states + [t], steps + [a];
    assert Run(states', steps') && states'[|steps'|] == t;
  }

  /** One cell of one column; on disk it names a slot that has been taken out of it and retired. */
  ghost function Retired(): State {
    State(true, [0], [None], [Some(7)], {7}, {}, map[], {}, {0}, [(0, 7, 8)], 0, map[], map[])
  }

  lemma TiedReached(s: State)
    requires s == State(true, [0], [Some(7)], [Some(7)], {7}, {}, map[], {}, {0}, [], 0, map[], map[])
    ensures Reachable(s)
  {
    var s0 := State(true, [0], [None], [None], {}, {}, map[], {}, {}, [], 0, map[], map[]);
    assert Reachable(s0) by {
      var states, steps: seq<Step> := [s0], [];
      assert Run(states, steps) && states[|steps|] == s0;
    }
    hide Reachable;
    var s1 := s0.(held := {7}, loose := {7});
    StepReached(s0, Insert(7), s1);
    var s2 := s1.(mem := [Some(7)], loose := {}, unmarked := {0});
    StepReached(s1, Tie(0, 7), s2);
    var s3 := s2.(unmarked := {}, dirty := {0});
    StepReached(s2, Mark(0), s3);
    StepReached(s3, OsWrites(0), s);
  }

  lemma RetiredReached()
    ensures Reachable(Retired())
  {
    var s := State(true, [0], [Some(7)], [Some(7)], {7}, {}, map[], {}, {0}, [], 0, map[], map[]);
    TiedReached(s);
    hide Reachable;
    var s1 := s.(mem := [None], parted := map[7 := 0], unmarked := {0});
    StepReached(s, Untie(0), s1);
    var s2 := s1.(unmarked := {});
    StepReached(s1, Mark(0), s2);
    StepReached(s2, Retire(7, 8), Retired());
  }

  lemma FirstTakes(s: State)
    requires Reachable(s) && s.column == [0] && s.dirty == {0} && s.flights == map[] && 1 in s.outs && !s.outs[1].all
    ensures Reachable(s.(dirty := {}, flights := map[0 := Flight(1, {0}, false)]))
  {
    assert CellsOf(s, 0) == {0} && {0} * s.dirty == {0} && s.dirty - {0} == {};
    StepReached(s, Take(1, 0), s.(dirty := {}, flights := map[0 := Flight(1, {0}, false)]));
  }

  /**
   A run that breaks the promise: the second write-out finds no mark on the column the first one has in flight, passes
   over it, and frees the slot the cell still names on disk.
   */
  lemma PassedInFlight()
    ensures exists s: State :: Reachable(s) && s.overlap && !Safe(s)
  {
    RetiredReached();
    hide Reachable;
    var s := Retired();
    var s1 := s.(epoch := 1, outs := map[1 := WriteOut(0, false, false, {}, {})]);
    StepReached(s, Begin(1, false), s1);
    var s2 := s1.(epoch := 2,
      outs := map[1 := WriteOut(0, false, false, {}, {}), 2 := WriteOut(1, false, false, {}, {})]);
    StepReached(s1, Begin(2, false), s2);
    FirstTakes(s2);
    var s3 := s2.(dirty := {}, flights := map[0 := Flight(1, {0}, false)]);
    var s4 := s3.(outs := map[1 := WriteOut(0, false, false, {}, {}), 2 := WriteOut(1, false, false, {0}, {0})]);
    assert CellsOf(s3, 0) == {0} && Unlanded(s3, 0) == {0};
    assert s3.outs[2].done + {0} == {0} && s3.outs[2].passed - {0} + {0} == {0};
    assert Done(s3, 2, 0, {0}) == s4.outs;
    StepReached(s3, Pass(2, 0), s4);
    assert s4.pending[0] in s4.pending;
    StepReached(s4, End(2), Do(s4, End(2)));
    assert Do(s4, End(2)).disk[0].value in Named(Do(s4, End(2)).disk);
  }

  /** What a run may do: pass over a column that another write-out has in flight. */
  ghost predicate Follows(passesOver: bool, states: seq<State>, steps: seq<Step>) {
    Run(states, steps) && (passesOver || NoPassInFlight(states, steps))
  }

  /**
   The promise holds in every run that keeps to a rule, if and only if the rule forbids to pass over a column in
   flight.
   */
  lemma WhenPassingIsSafe(passesOver: bool)
    ensures !passesOver <==>
      forall states: seq<State>, steps: seq<Step> | Follows(passesOver, states, steps) :: Safe(states[|steps|])
  {
    if passesOver {
      PassedInFlight();
      var s: State :| Reachable(s) && !Safe(s);
      var states, steps :| Run(states, steps) && states[|steps|] == s;
      assert Follows(passesOver, states, steps);
    } else {
      forall states: seq<State>, steps: seq<Step> | Follows(passesOver, states, steps) ensures Safe(states[|steps|]) {
        WaitingIsEnough(states, steps, |steps|);
      }
    }
  }

  /** The promise holds in every run if write-outs are kept apart, and does not if they may overlap. */
  lemma WhenReuseIsSafe(overlap: bool)
    ensures (forall s: State | Reachable(s) && s.overlap == overlap :: Safe(s)) <==> !overlap
  {
    if overlap {
      PassedInFlight();
    } else {
      forall s: State | Reachable(s) && s.overlap == overlap ensures Safe(s) {
        var states: seq<State>, steps: seq<Step> :| Run(states, steps) && states[|steps|] == s;
        RunOverlap(states, steps, |steps|);
        forall i | 0 <= i < |steps| && steps[i].Pass? ensures Unlanded(states[i], steps[i].k) == {} {
          AloneRun(states, steps, i);
          AloneStep(states[i], steps[i]);
        }
        WaitingIsEnough(states, steps, |steps|);
      }
    }
  }

  // ---- A power loss, and a flush that fails ----

  /**
   Over every run that keeps the promise: a power loss leaves what the disk has, and holds just the slots it names.
   */
  lemma PowerLossKeepsDisk(states: seq<State>, steps: seq<Step>, i: nat)
    requires Run(states, steps) && i < |steps| && EndsClear(states, steps, i) && steps[i].PowerLoss?
    ensures var s, t := states[i], states[i + 1];
      && t.mem == t.disk == s.disk && t.held == Named(s.disk) <= s.held
      && t.outs == map[] && t.flights == map[] && t.pending == [] && t.dirty == {}
  {
    RunInv(states, steps, i);
    InvSafe(states[i]);
    assert states[i + 1] == Do(states[i], steps[i]);
  }

  /**
   Over every run: a flush that fails gives back the marks it took and has not put on disk, and its write-out fails.
   */
  lemma FailedFlushGivesBack(states: seq<State>, steps: seq<Step>, i: nat)
    requires Run(states, steps) && i < |steps| && steps[i].FailFlush?
    ensures var s, t, k := states[i], states[i + 1], steps[i].k;
      && Unlanded(s, k) <= t.dirty && s.dirty <= t.dirty && k !in t.flights
      && s.flights[k].id in t.outs && t.outs[s.flights[k].id].failed
  {
    assert states[i + 1] == Do(states[i], steps[i]);
  }

  // ---- Nothing is held for ever ----

  ghost predicate Path(states: seq<State>, steps: seq<Step>) {
    && |states| == |steps| + 1
    && forall i | 0 <= i < |steps| :: Enabled(states[i], steps[i]) && states[i + 1] == Do(states[i], steps[i])
  }

  /** A new slot, a change of a cell, or a mishap. */
  ghost predicate NewWork(a: Step) {
    a.Insert? || a.Tie? || a.Untie? || a.FailFlush? || a.PowerLoss?
  }

  ghost predicate Quietly(steps: seq<Step>) {
    forall i | 0 <= i < |steps| :: !NewWork(steps[i])
  }

  /** There is a way from `s` to `t` without new work. */
  ghost predicate Leads(s: State, t: State) {
    exists states, steps :: Path(states, steps) && states[0] == s && states[|steps|] == t && Quietly(steps)
  }

  lemma LeadsHere(s: State)
    ensures Leads(s, s)
  {
    var states, steps: seq<Step> := [s], [];
    assert Path(states, steps) && states[0] == s && states[|steps|] == s && Quietly(steps);
  }

  lemma LeadsOn(s: State, t: State, a: Step)
    requires Leads(s, t) && Enabled(t, a) && !NewWork(a)
    ensures Leads(s, Do(t, a))
  {
    hide Do, Enabled, NewWork;
    var states, steps :| Path(states, steps) && states[0] == s && states[|steps|] == t && Quietly(steps);
    var states', steps' := states + [Do(t, a)], steps + [a];
    assert Path(states', steps') && states'[0] == s && states'[|steps'|] == Do(t, a) && Quietly(steps');
  }

  /** On the way from `s`, with the cells as they were. */
  ghost predicate Under(s: State, t: State) {
    Leads(s, t) && Inv(t) && t.mem == s.mem && t.column == s.column
  }

  lemma UnderOn(s: State, t: State, a: Step)
    requires Under(s, t) && Enabled(t, a) && !NewWork(a) && (a.End? ==> PassedClear(t, a.id))
    ensures Under(s, Do(t, a))
  {
    hide Inv, Leads, PassedClear;
    LeadsOn(s, t, a);
    StepInv(t, a);
    assert Do(t, a).mem == t.mem && Do(t, a).column == t.column;
  }

  lemma {:induction false} MarksAll(s: State, g: State) returns (h: State)
    requires Under(s, g)
    ensures Under(s, h) && h.unmarked == {}
    decreases |g.unmarked|
  {
    hide Under;
    h := g;
    if c :| c in g.unmarked {
      UnderOn(s, g, Mark(c));
      h := MarksAll(s, Do(g, Mark(c)));
    }
  }

  lemma {:induction false} RetiresAll(s: State, g: State) returns (h: State)
    requires Under(s, g) && g.unmarked == {}
    ensures Under(s, h) && h.unmarked == {} && h.parted == map[]
    decreases |g.parted.Keys|
  {
    hide Under;
    h := g;
    if x :| x in g.parted {
      UnderOn(s, g, Retire(x, 0));
      var g' := Do(g, Retire(x, 0));
      assert g'.parted.Keys == g.parted.Keys - {x};
      h := RetiresAll(s, g');
    }
  }

  ghost predicate WritersDone(s: State) {
    s.unmarked == {} && s.parted == map[] && s.loose == {}
  }

  lemma {:induction false} RefusesAll(s: State, g: State) returns (h: State)
    requires Under(s, g) && g.unmarked == {} && g.parted == map[]
    ensures Under(s, h) && WritersDone(h)
    decreases |g.loose|
  {
    hide Under;
    h := g;
    if x :| x in g.loose {
      UnderOn(s, g, Refuse(x));
      h := RefusesAll(s, Do(g, Refuse(x)));
    }
  }

  /** What landing cells leaves alone. */
  ghost predicate OnlyLands(g: State, h: State, k: nat) {
    && h.mem == g.mem && h.column == g.column && h.outs == g.outs && h.pending == g.pending && h.epoch == g.epoch
    && k in g.flights && k in h.flights && h.flights - {k} == g.flights - {k}
    && h.flights[k].id == g.flights[k].id
  }

  ghost predicate Written(s: State, c: nat) {
    IsCell(s, c) && s.disk[c] == s.mem[c]
  }

  lemma LandOne(s: State, g: State, k: nat, c: nat) returns (h: State)
    requires Under(s, g) && WritersDone(g) && k in g.flights && c in g.flights[k].left
    ensures Under(s, h) && WritersDone(h) && OnlyLands(g, h, k) && h.flights[k].left == g.flights[k].left - {c}
    ensures forall d | Written(g, d) || d == c :: Written(h, d)
  {
    assert c in CellsOf(g, k);
    UnderOn(s, g, Land(c));
    h := Do(g, Land(c));
    hide Under;
  }

  /** Every cell of a flight lands. */
  lemma {:induction false} LandsAll(s: State, g: State, k: nat) returns (h: State)
    requires Under(s, g) && WritersDone(g) && k in g.flights
    ensures Under(s, h) && WritersDone(h) && OnlyLands(g, h, k) && h.flights[k].left == {}
    ensures forall d | Written(g, d) || d in g.flights[k].left :: Written(h, d)
    decreases |g.flights[k].left|
  {
    hide Under, Written;
    h := g;
    if c :| c in g.flights[k].left {
      var g' := LandOne(s, g, k, c);
      h := LandsAll(s, g', k);
      assert forall d | d in g.flights[k].left && d != c :: d in g'.flights[k].left;
    }
  }

  lemma {:induction false} FlightsEnd(s: State, g: State) returns (h: State)
    requires Under(s, g) && WritersDone(g)
    ensures Under(s, h) && WritersDone(h) && h.flights == map[]
    decreases |g.flights.Keys|
  {
    h := g;
    if k :| k in g.flights {
      var g' := LandsAll(s, g, k);
      assert g'.flights[k].id in g'.outs;
      UnderOn(s, g', EndFlush(k));
      hide Under;
      assert g'.flights.Keys == g.flights.Keys by {
        KeysOf(g.flights, g'.flights, k);
      }
      var g2 := Do(g', EndFlush(k));
      assert g2.flights.Keys == g.flights.Keys - {k};
      h := FlightsEnd(s, g2);
    }
  }

  lemma KeysOf(f: map<nat, Flight>, e: map<nat, Flight>, k: nat)
    requires k in f && k in e && e - {k} == f - {k}
    ensures e.Keys == f.Keys
  {
    forall x ensures x in e <==> x in f {
      assert x != k ==> (x in e <==> x in e - {k}) && (x in f <==> x in f - {k});
    }
  }

  lemma {:induction false} OutsEnd(s: State, g: State) returns (h: State)
    requires Under(s, g) && WritersDone(g) && g.flights == map[]
    ensures Under(s, h) && WritersDone(h) && h.flights == map[] && h.outs == map[]
    decreases |g.outs.Keys|
  {
    hide Under;
    h := g;
    if id :| id in g.outs {
      UnderOn(s, g, Fail(id));
      var g' := Do(g, Fail(id));
      assert g'.outs.Keys == g.outs.Keys - {id};
      h := OutsEnd(s, g');
    }
  }

  /** One write-out of everything is under way; what it is done with is on disk, and it frees all that waits. */
  ghost predicate OneFor(s: State) {
    && WritersDone(s) && s.outs.Keys == {0} && s.outs[0].all && !s.outs[0].failed && s.outs[0].passed == {}
    && (forall x | x in s.pending :: x.0 <= s.outs[0].token)
    && forall c: nat | IsCell(s, c) && s.column[c] in s.outs[0].done :: Written(s, c)
  }

  ghost predicate BetweenColumns(s: State) {
    OneFor(s) && s.flights == map[]
  }

  ghost predicate AtColumn(s: State, k: nat) {
    OneFor(s) && s.flights.Keys == {k} && s.flights[k].id == 0
  }

  lemma TakesOne(s: State, g: State, k: nat) returns (h: State)
    requires Under(s, g) && BetweenColumns(g)
    ensures Under(s, h) && AtColumn(h, k) && h.outs == g.outs && h.flights[k].left == CellsOf(h, k)
  {
    UnderOn(s, g, Take(0, k));
    h := Do(g, Take(0, k));
    hide Under;
    forall c: nat | IsCell(h, c) && h.column[c] in h.outs[0].done ensures Written(h, c) {
      assert Written(g, c);
    }
  }

  lemma LandsOne(s: State, g: State, k: nat) returns (h: State)
    requires Under(s, g) && AtColumn(g, k) && g.flights[k].left == CellsOf(g, k)
    ensures Under(s, h) && AtColumn(h, k) && h.outs == g.outs && h.flights[k].left == {}
    ensures forall c: nat | IsCell(h, c) && h.column[c] == k :: Written(h, c)
  {
    h := LandsAll(s, g, k);
    UnderSame(s, g);
    UnderSame(s, h);
    hide Under;
    KeysOf(g.flights, h.flights, k);
    forall c: nat | IsCell(h, c) && h.column[c] == k ensures Written(h, c) {
      assert c in CellsOf(g, k);
    }
    forall c: nat | IsCell(h, c) && h.column[c] in h.outs[0].done ensures Written(h, c) {
      assert Written(g, c);
    }
  }

  lemma EndsOne(s: State, g: State, k: nat) returns (h: State)
    requires Under(s, g) && AtColumn(g, k) && g.flights[k].left == {}
    requires forall c: nat | IsCell(g, c) && g.column[c] == k :: Written(g, c)
    ensures Under(s, h) && BetweenColumns(h) && h.outs[0].done == g.outs[0].done + {k}
  {
    assert g.flights[k].id in g.outs;
    UnderOn(s, g, EndFlush(k));
    h := Do(g, EndFlush(k));
    hide Under;
    assert h.flights == map[] by {
      assert h.flights.Keys == {};
    }
    assert h.outs.Keys == {0};
    forall c: nat | IsCell(h, c) && h.column[c] in h.outs[0].done ensures Written(h, c) {
      assert Written(g, c);
    }
  }

  lemma ColumnWritten(s: State, g: State, k: nat) returns (h: State)
    requires Under(s, g) && BetweenColumns(g)
    ensures Under(s, h) && BetweenColumns(h) && h.outs[0].done == g.outs[0].done + {k}
  {
    h := TakesOne(s, g, k);
    hide Under, OneFor;
    h := LandsOne(s, h, k);
    h := EndsOne(s, h, k);
  }

  lemma {:induction false} ColumnsWritten(s: State, g: State, n: nat) returns (h: State)
    requires Under(s, g) && BetweenColumns(g) && n <= |s.column|
    ensures Under(s, h) && BetweenColumns(h) && forall c | 0 <= c < n :: s.column[c] in h.outs[0].done
  {
    hide Under, OneFor;
    h := g;
    if n > 0 {
      h := ColumnsWritten(s, g, n - 1);
      OneIsThere(h);
      h := ColumnWritten(s, h, s.column[n - 1]);
    }
    OneIsThere(h);
  }

  lemma OneIsThere(s: State)
    requires BetweenColumns(s)
    ensures 0 in s.outs
  {
  }

  lemma UnderSame(s: State, t: State)
    requires Under(s, t)
    ensures t.mem == s.mem && t.column == s.column && |t.mem| == |t.disk| == |t.column|
  {
    assert OnDisk(t);
  }

  ghost predicate AtRest(s: State) {
    WritersDone(s) && s.flights == map[] && s.outs == map[]
  }

  lemma BeginsOne(s: State, g: State) returns (h: State)
    requires Under(s, g) && AtRest(g)
    ensures Under(s, h) && BetweenColumns(h)
  {
    UnderOn(s, g, Begin(0, true));
    h := Do(g, Begin(0, true));
    forall x | x in h.pending ensures x.0 <= h.outs[0].token {
      var i :| 0 <= i < |g.pending| && g.pending[i] == x;
    }
    assert h.outs.Keys == {0};
  }

  lemma {:induction false} AllDue(p: seq<(nat, nat, nat)>, token: nat)
    requires forall x | x in p :: x.0 <= token
    ensures DueCount(p, token) == |p|
  {
    if p != [] {
      assert p[0] in p;
      forall x | x in p[1..] ensures x.0 <= token {
        assert x in p;
      }
      AllDue(p[1..], token);
    }
  }

  lemma FinishesOne(s: State, g: State) returns (h: State)
    requires Under(s, g) && BetweenColumns(g) && forall c | 0 <= c < |s.column| :: s.column[c] in g.outs[0].done
    ensures Under(s, h) && AtRest(h) && h.pending == [] && h.disk == h.mem
  {
    UnderSame(s, g);
    UnderOn(s, g, End(0));
    h := Do(g, End(0));
    AllDue(g.pending, g.outs[0].token);
    hide Under;
    assert h.outs.Keys == {};
    forall c | 0 <= c < |h.mem| ensures h.disk[c] == h.mem[c] {
      assert IsCell(g, c) && Written(g, c);
    }
    assert h.disk == h.mem;
  }

  /**
   Nothing is held for ever. From every state of a run that kept the promise, with no new work and no mishap, the
   writers
   and the write-outs under way come to their ends, and one more write-out puts every cell on disk and frees every slot
   but those the cells name.
   */
  lemma SettlesDown(states: seq<State>, steps: seq<Step>) returns (t: State)
    requires Run(states, steps) && EndsClear(states, steps, |steps|)
    ensures var s := states[|steps|]; Leads(s, t) && t.mem == s.mem
    ensures AtRest(t) && t.disk == t.mem && t.pending == [] && t.held == Named(t.mem)
  {
    var s := states[|steps|];
    RunInv(states, steps, |steps|);
    LeadsHere(s);
    t := MarksAll(s, s);
    t := RetiresAll(s, t);
    t := RefusesAll(s, t);
    hide WritersDone;
    t := FlightsEnd(s, t);
    t := OutsEnd(s, t);
    t := BeginsOne(s, t);
    hide Under;
    t := ColumnsWritten(s, t, |s.column|);
    t := FinishesOne(s, t);
    RestHolds(s, t);
  }

  lemma RestHolds(s: State, t: State)
    requires Under(s, t) && AtRest(t) && t.pending == []
    ensures Leads(s, t) && t.mem == s.mem && t.held == Named(t.mem)
  {
    assert Waits(t.pending) == {};
  }
}
