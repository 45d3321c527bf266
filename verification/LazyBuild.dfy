/**
 Building the index of a column while writers are at work (crates/enchudb-engine/src/himo_store.rs, `set`,
 `set_indexed`, `store_unindexed`, `remove`, `ensure_cylinder_built`, `write_guard`), one atomic step at a time.

 Writers of one cell follow one another; any number of writers of different cells, builders and barriers run
 side by side. `live` are the entries of the index that have not been noted stale.
 */
module LazyBuild {
  datatype Phase =
    | Begun        // before looking whether there is an index
    | AtGate | InGate | WroteInGate
    | AtLock | InLock | ToWrite | WroteInLock
    | AtKeys | Keyed | Noted | Stored | Pushed

  /** Give cell `cell` the content `x`: 0 for none, `v + 1` for value `v`. */
  datatype Op = Op(cell: nat, x: nat, phase: Phase)

  /** Who has the write lock, and how far it is. */
  datatype Lock =
    | Open
    | Writer(id: nat)
    | BuildLocked | BuildClosed | Scanning(i: nat) | Built
    | BarLocked | BarClosed | BarDrained | BarHeld | BarOpened

  datatype State = State(
    col: seq<nat>, live: set<(nat, nat)>, built: bool, closed: bool, inside: set<nat>,
    lock: Lock, ops: map<nat, Op>)

  datatype Step =
    | Begin(w: nat, cell: nat, x: nat)
    | SeeBuilt(w: nat) | TryGate(w: nat) | GateWrite(w: nat) | GateLeave(w: nat)
    | TakeLock(w: nat) | LockSees(w: nat) | LockWrite(w: nat) | LockLeave(w: nat)
    | TakeKeys(w: nat) | NoteStale(w: nat) | KeyWrite(w: nat) | Push(w: nat) | KeyLeave(w: nat)
    | BuildLock | BuildGivesUp | BuildClose | BuildDrain | BuildScan | BuildSet | BuildUnlock
    | BarLock | BarClose | BarDrain | BarKeys | BarOpen | BarUnlock

  ghost predicate At(s: State, w: nat, p: Phase) {
    w in s.ops && s.ops[w].phase == p && s.ops[w].cell < |s.col|
  }

  /** A writer that holds the keys of its values. */
  ghost predicate HasKeys(p: Phase) {
    p.Keyed? || p.Noted? || p.Stored? || p.Pushed?
  }

  ghost predicate HasWritten(p: Phase) {
    p.WroteInGate? || p.WroteInLock? || p.Stored? || p.Pushed?
  }

  ghost predicate Enabled(s: State, a: Step) {
    match a
    case Begin(w, c, x) => w !in s.ops && c < |s.col| && forall u | u in s.ops :: s.ops[u].cell != c
    case SeeBuilt(w) => At(s, w, Begun)
    case TryGate(w) => At(s, w, AtGate)
    case GateWrite(w) => At(s, w, InGate)
    case GateLeave(w) => At(s, w, WroteInGate)
    case TakeLock(w) => At(s, w, AtLock) && s.lock.Open?
    case LockSees(w) => At(s, w, InLock)
    case LockWrite(w) => At(s, w, ToWrite)
    case LockLeave(w) => At(s, w, WroteInLock)
    case TakeKeys(w) => At(s, w, AtKeys) && !s.lock.BarHeld? && !s.lock.BarOpened?
    case NoteStale(w) => At(s, w, Keyed)
    case KeyWrite(w) => At(s, w, Noted)
    case Push(w) => At(s, w, Stored)
    case KeyLeave(w) => At(s, w, Pushed)
    case BuildLock => s.lock.Open?
    case BuildGivesUp => s.lock.BuildLocked? && s.built
    case BuildClose => s.lock.BuildLocked? && !s.built
    case BuildDrain => s.lock.BuildClosed? && s.inside == {}
    case BuildScan => s.lock.Scanning? && s.lock.i < |s.col|
    case BuildSet => s.lock.Scanning? && s.lock.i == |s.col|
    case BuildUnlock => s.lock.Built?
    case BarLock => s.lock.Open?
    case BarClose => s.lock.BarLocked?
    case BarDrain => s.lock.BarClosed? && s.inside == {}
    case BarKeys => s.lock.BarDrained? && (s.built ==> forall w | w in s.ops :: !HasKeys(s.ops[w].phase))
    case BarOpen => s.lock.BarHeld?
    case BarUnlock => s.lock.BarOpened?
  }

  ghost function Goes(s: State, w: nat, p: Phase): State
    requires w in s.ops
  {
    s.(ops := s.ops[w := s.ops[w].(phase := p)])
  }

  /** The content of the cell of a writer. */
  ghost function Content(s: State, w: nat): nat
    requires w in s.ops && s.ops[w].cell < |s.col|
  {
    s.col[s.ops[w].cell]
  }

  ghost function Written(s: State, w: nat): State
    requires w in s.ops && s.ops[w].cell < |s.col|
  {
    s.(col := s.col[s.ops[w].cell := s.ops[w].x])
  }

  /** The entry of cell `c` with content `x`, if it has a value. */
  ghost function Entry(c: nat, x: nat): set<(nat, nat)> {
    if x == 0 then {} else {(c, x - 1)}
  }

  ghost function Do(s: State, a: Step): State
    requires Enabled(s, a)
  {
    match a
    case Begin(w, c, x) => s.(ops := s.ops[w := Op(c, x, Begun)])
    case SeeBuilt(w) => Goes(s, w, if s.built then AtKeys else AtGate)
    case TryGate(w) => if s.closed then Goes(s, w, AtLock) else Goes(s, w, InGate).(inside := s.inside + {w})
    case GateWrite(w) => Goes(Written(s, w), w, WroteInGate)
    case GateLeave(w) => s.(inside := s.inside - {w}, ops := s.ops - {w})
    case TakeLock(w) => Goes(s, w, InLock).(lock := Writer(w))
    case LockSees(w) => if s.built then Goes(s, w, AtKeys).(lock := Open) else Goes(s, w, ToWrite)
    case LockWrite(w) => Goes(Written(s, w), w, WroteInLock)
    case LockLeave(w) => s.(lock := Open, ops := s.ops - {w})
    case TakeKeys(w) => if Content(s, w) == s.ops[w].x then s.(ops := s.ops - {w}) else Goes(s, w, Keyed)
    case NoteStale(w) => Goes(s, w, Noted).(live := s.live - Entry(s.ops[w].cell, Content(s, w)))
    case KeyWrite(w) => Goes(Written(s, w), w, Stored)
    case Push(w) => Goes(s, w, Pushed).(live := s.live + Entry(s.ops[w].cell, s.ops[w].x))
    case KeyLeave(w) => s.(ops := s.ops - {w})
    case BuildLock => s.(lock := BuildLocked)
    case BuildGivesUp => s.(lock := Open)
    case BuildClose => s.(closed := true, lock := BuildClosed)
    case BuildDrain => s.(lock := Scanning(0))
    case BuildScan => s.(live := s.live + Entry(s.lock.i, s.col[s.lock.i]), lock := Scanning(s.lock.i + 1))
    case BuildSet => s.(built := true, lock := Built)
    case BuildUnlock => s.(lock := Open)
    case BarLock => s.(lock := BarLocked)
    case BarClose => s.(closed := true, lock := BarClosed)
    case BarDrain => s.(lock := BarDrained)
    case BarKeys => s.(lock := BarHeld)
    case BarOpen => s.(closed := s.built, lock := BarOpened)
    case BarUnlock => s.(lock := Open)
  }

  /** A column with no index yet. */
  ghost predicate Start(s: State) {
    s.live == {} && !s.built && !s.closed && s.inside == {} && s.lock.Open? && s.ops == map[]
  }

  ghost predicate Run(states: seq<State>, steps: seq<Step>) {
    && |states| == |steps| + 1 && Start(states[0])
    && forall i | 0 <= i < |steps| :: Enabled(states[i], steps[i]) && states[i + 1] == Do(states[i], steps[i])
  }

  // ---- Invariant ----

  /** A writer inside the gate is counted there; one that uses the lock has it. */
  ghost predicate WriterOk(s: State, w: nat)
    requires w in s.ops
  {
    var o := s.ops[w];
    && o.cell < |s.col|
    && (o.phase.InGate? || o.phase.WroteInGate? <==> w in s.inside)
    && (o.phase.InLock? || o.phase.ToWrite? || o.phase.WroteInLock? <==> s.lock == Writer(w))
    && (o.phase.ToWrite? || o.phase.WroteInLock? ==> !s.built)
    && (o.phase.AtKeys? || HasKeys(o.phase) ==> s.built)
    && (HasKeys(o.phase) ==> !s.lock.BarHeld? && !s.lock.BarOpened?)
    && (HasWritten(o.phase) ==> s.col[o.cell] == o.x)
  }

  ghost predicate WritersOk(s: State) {
    && (forall w | w in s.ops :: WriterOk(s, w))
    && (forall w, u | w in s.ops && u in s.ops && w != u :: s.ops[w].cell != s.ops[u].cell)
    && s.inside <= s.ops.Keys && (s.lock.Writer? ==> s.lock.id in s.ops)
  }

  /** Once a builder or a barrier has waited, nobody is inside, and nobody comes in. */
  ghost predicate GateOk(s: State) {
    && (s.lock.BuildClosed? || s.lock.BarClosed? ==> s.closed)
    && (s.lock.Scanning? || s.lock.Built? || s.lock.BarDrained? || s.lock.BarHeld? || s.built ==>
      s.closed && s.inside == {})
    && (s.lock.Scanning? || s.lock.BuildClosed? ==> !s.built) && (s.lock.Built? ==> s.built)
  }

  /** The cell is between the note that its old value leaves and the push of its new one. */
  ghost predicate Between(s: State, c: nat) {
    exists w | w in s.ops :: s.ops[w].cell == c && (s.ops[w].phase.Noted? || s.ops[w].phase.Stored?)
  }

  /** How far the index covers the column. */
  ghost function Reach(s: State): nat {
    if s.built then |s.col| else if s.lock.Scanning? then s.lock.i else 0
  }

  ghost predicate LiveOk(s: State) {
    && Reach(s) <= |s.col|
    && forall c: nat, v: nat :: (c, v) in s.live <==> c < Reach(s) && s.col[c] == v + 1 && !Between(s, c)
  }

  ghost predicate Inv(s: State) {
    WritersOk(s) && GateOk(s) && LiveOk(s)
  }

  lemma StartInv(s: State)
    requires Start(s)
    ensures Inv(s)
  {
  }

  /** The steps of one writer. */
  ghost function By(a: Step): (r: int) {
    match a
    case Begin(w, _, _) => w
    case SeeBuilt(w) => w
    case TryGate(w) => w
    case GateWrite(w) => w
    case GateLeave(w) => w
    case TakeLock(w) => w
    case LockSees(w) => w
    case LockWrite(w) => w
    case LockLeave(w) => w
    case TakeKeys(w) => w
    case NoteStale(w) => w
    case KeyWrite(w) => w
    case Push(w) => w
    case KeyLeave(w) => w
    case _ => -1
  }

  /** A step of one writer leaves the others where they are, and their cells and the lock they hold. */
  ghost predicate OnlyBy(s: State, t: State, w: nat) {
    && t.ops - {w} == s.ops - {w} && t.inside - {w} == s.inside - {w}
    && |t.col| == |s.col|
      && (forall u | u != w && u in s.ops && s.ops[u].cell < |s.col| :: t.col[s.ops[u].cell] == s.col[s.ops[u].cell])
    && t.built == s.built
      && (t.lock == s.lock || ((s.lock.Open? || s.lock == Writer(w)) && (t.lock.Open? || t.lock == Writer(w))))
  }

  ghost predicate GateStep(a: Step) {
    a.Begin? || a.SeeBuilt? || a.TryGate? || a.GateWrite? || a.GateLeave?
  }

  lemma GateAlone(s: State, a: Step)
    requires WritersOk(s) && Enabled(s, a) && GateStep(a)
    ensures By(a) >= 0 && OnlyBy(s, Do(s, a), By(a))
  {
    var w := By(a);
    assert w in s.ops ==> WriterOk(s, w);
    assert w in s.ops ==> forall u | u in s.ops && u != w :: s.ops[u].cell != s.ops[w].cell;
    hide WritersOk;
  }

  lemma ComerOk(s: State, a: Step)
    requires WritersOk(s) && GateOk(s) && Enabled(s, a) && (a.Begin? || a.SeeBuilt? || a.TryGate?)
    ensures By(a) >= 0 && (By(a) in Do(s, a).ops ==> WriterOk(Do(s, a), By(a)))
    ensures By(a) !in Do(s, a).ops ==> By(a) !in Do(s, a).inside && Do(s, a).lock != Writer(By(a))
  {
    var w := By(a);
    assert w in s.ops ==> WriterOk(s, w);
    assert s.inside <= s.ops.Keys && (s.lock.Writer? ==> s.lock.id in s.ops);
    hide WritersOk;
  }

  lemma GoerOk(s: State, a: Step)
    requires WritersOk(s) && GateOk(s) && Enabled(s, a) && (a.GateWrite? || a.GateLeave?)
    ensures By(a) >= 0 && (By(a) in Do(s, a).ops ==> WriterOk(Do(s, a), By(a)))
    ensures By(a) !in Do(s, a).ops ==> By(a) !in Do(s, a).inside && Do(s, a).lock != Writer(By(a))
  {
    var w := By(a);
    assert w in s.ops ==> WriterOk(s, w);
    assert s.inside <= s.ops.Keys && (s.lock.Writer? ==> s.lock.id in s.ops);
    hide WritersOk;
  }

  lemma GateMoverOk(s: State, a: Step)
    requires WritersOk(s) && GateOk(s) && Enabled(s, a) && GateStep(a)
    ensures By(a) >= 0 && (By(a) in Do(s, a).ops ==> WriterOk(Do(s, a), By(a)))
    ensures By(a) !in Do(s, a).ops ==> By(a) !in Do(s, a).inside && Do(s, a).lock != Writer(By(a))
  {
    hide WritersOk, GateOk, Enabled, Do, By, WriterOk;
    if a.GateWrite? || a.GateLeave? {
      GoerOk(s, a);
    } else {
      ComerOk(s, a);
    }
  }

  ghost predicate LockStep(a: Step) {
    a.TakeLock? || a.LockSees? || a.LockWrite? || a.LockLeave?
  }

  lemma LockAlone(s: State, a: Step)
    requires WritersOk(s) && Enabled(s, a) && LockStep(a)
    ensures By(a) >= 0 && OnlyBy(s, Do(s, a), By(a))
  {
    var w := By(a);
    assert w in s.ops ==> WriterOk(s, w);
    assert w in s.ops ==> forall u | u in s.ops && u != w :: s.ops[u].cell != s.ops[w].cell;
    hide WritersOk;
  }

  lemma LockTakerOk(s: State, a: Step)
    requires WritersOk(s) && GateOk(s) && Enabled(s, a) && (a.TakeLock? || a.LockSees?)
    ensures By(a) >= 0 && (By(a) in Do(s, a).ops ==> WriterOk(Do(s, a), By(a)))
    ensures By(a) !in Do(s, a).ops ==> By(a) !in Do(s, a).inside && Do(s, a).lock != Writer(By(a))
  {
    var w := By(a);
    assert w in s.ops ==> WriterOk(s, w);
    assert s.inside <= s.ops.Keys && (s.lock.Writer? ==> s.lock.id in s.ops);
    hide WritersOk;
  }

  lemma LockHolderOk(s: State, a: Step)
    requires WritersOk(s) && GateOk(s) && Enabled(s, a) && (a.LockWrite? || a.LockLeave?)
    ensures By(a) >= 0 && (By(a) in Do(s, a).ops ==> WriterOk(Do(s, a), By(a)))
    ensures By(a) !in Do(s, a).ops ==> By(a) !in Do(s, a).inside && Do(s, a).lock != Writer(By(a))
  {
    var w := By(a);
    assert w in s.ops ==> WriterOk(s, w);
    assert s.inside <= s.ops.Keys && (s.lock.Writer? ==> s.lock.id in s.ops);
    hide WritersOk;
  }

  lemma LockMoverOk(s: State, a: Step)
    requires WritersOk(s) && GateOk(s) && Enabled(s, a) && LockStep(a)
    ensures By(a) >= 0 && (By(a) in Do(s, a).ops ==> WriterOk(Do(s, a), By(a)))
    ensures By(a) !in Do(s, a).ops ==> By(a) !in Do(s, a).inside && Do(s, a).lock != Writer(By(a))
  {
    hide WritersOk, GateOk, Enabled, Do, By, WriterOk;
    if a.TakeLock? || a.LockSees? {
      LockTakerOk(s, a);
    } else {
      LockHolderOk(s, a);
    }
  }

  ghost predicate KeysStep(a: Step) {
    a.TakeKeys? || a.NoteStale? || a.KeyWrite? || a.Push? || a.KeyLeave?
  }

  lemma KeysAlone(s: State, a: Step)
    requires WritersOk(s) && Enabled(s, a) && KeysStep(a)
    ensures By(a) >= 0 && OnlyBy(s, Do(s, a), By(a))
  {
    var w := By(a);
    assert w in s.ops ==> WriterOk(s, w);
    assert w in s.ops ==> forall u | u in s.ops && u != w :: s.ops[u].cell != s.ops[w].cell;
    hide WritersOk;
  }

  lemma KeysMoverOk(s: State, a: Step)
    requires WritersOk(s) && GateOk(s) && Enabled(s, a) && KeysStep(a)
    ensures By(a) >= 0 && (By(a) in Do(s, a).ops ==> WriterOk(Do(s, a), By(a)))
    ensures By(a) !in Do(s, a).ops ==> By(a) !in Do(s, a).inside && Do(s, a).lock != Writer(By(a))
  {
    var w := By(a);
    assert w in s.ops ==> WriterOk(s, w);
    assert s.inside <= s.ops.Keys && (s.lock.Writer? ==> s.lock.id in s.ops);
    hide WritersOk;
  }

  lemma WriterMoves(s: State, a: Step)
    requires Inv(s) && Enabled(s, a) && By(a) >= 0
    ensures OnlyBy(s, Do(s, a), By(a))
    ensures By(a) in Do(s, a).ops ==> WriterOk(Do(s, a), By(a))
    ensures By(a) !in Do(s, a).ops ==> By(a) !in Do(s, a).inside && Do(s, a).lock != Writer(By(a))
  {
    assert GateStep(a) || LockStep(a) || KeysStep(a);
    hide LiveOk, WritersOk, GateOk, Enabled, Do, By, OnlyBy, WriterOk, GateStep, LockStep, KeysStep;
    if GateStep(a) {
      GateAlone(s, a);
      GateMoverOk(s, a);
    } else if LockStep(a) {
      LockAlone(s, a);
      LockMoverOk(s, a);
    } else {
      KeysAlone(s, a);
      KeysMoverOk(s, a);
    }
  }

  lemma OthersStay(s: State, t: State, w: nat)
    requires WritersOk(s) && OnlyBy(s, t, w) && (w in t.ops ==> WriterOk(t, w))
    requires w !in t.ops ==> w !in t.inside && t.lock != Writer(w)
    requires w in t.ops ==> forall u | u in s.ops && u != w :: s.ops[u].cell != t.ops[w].cell
    ensures WritersOk(t)
  {
    assert forall u | u != w :: (u in t.ops <==> u in t.ops - {w}) && (u in s.ops <==> u in s.ops - {w});
    assert forall u | u != w && u in s.ops :: t.ops[u] == (t.ops - {w})[u] && s.ops[u] == (s.ops - {w})[u];
    assert forall u | u != w :: (u in t.inside <==> u in t.inside - {w}) && (u in s.inside <==> u in s.inside - {w});
    forall u | u in t.ops ensures WriterOk(t, u) {
      if u != w {
        assert WriterOk(s, u);
      }
    }
    assert s.lock.Writer? ==> s.lock.id in s.ops;
  }

  lemma WritersInv(s: State, a: Step)
    requires Inv(s) && Enabled(s, a)
    ensures WritersOk(Do(s, a))
  {
    hide LiveOk;
    if By(a) >= 0 {
      WriterMoves(s, a);
      hide Do, OnlyBy, WriterOk, Enabled, GateOk;
      CellStays(s, a);
      OthersStay(s, Do(s, a), By(a));
    } else {
      OwnerMoves(s, a);
    }
  }

  lemma CellStays(s: State, a: Step)
    requires WritersOk(s) && Enabled(s, a) && By(a) >= 0
    ensures var t, w := Do(s, a), By(a);
      w in t.ops ==> forall u | u in s.ops && u != w :: s.ops[u].cell != t.ops[w].cell
  {
    hide WriterOk;
  }

  lemma OwnerMoves(s: State, a: Step)
    requires WritersOk(s) && GateOk(s) && Enabled(s, a) && By(a) < 0
    ensures WritersOk(Do(s, a))
  {
    var t := Do(s, a);
    forall w | w in t.ops ensures WriterOk(t, w) {
      assert WriterOk(s, w);
    }
  }

  lemma GateInv(s: State, a: Step)
    requires Inv(s) && Enabled(s, a)
    ensures GateOk(Do(s, a))
  {
    hide LiveOk;
  }

  // ---- The index ----

  lemma BetweenSame(s: State, t: State)
    requires forall c: nat :: Between(t, c) <==> Between(s, c)
    requires LiveOk(s) && t.live == s.live && Reach(t) == Reach(s) && |t.col| == |s.col|
    requires forall c | 0 <= c < Reach(s) :: t.col[c] == s.col[c]
    ensures LiveOk(t)
  {
  }

  /** Steps that neither touch the index nor a cell it covers. */
  lemma QuietInv(s: State, a: Step)
    requires Inv(s) && Enabled(s, a) && !a.NoteStale? && !a.KeyWrite? && !a.Push? && !a.BuildScan? && !a.BuildSet?
    requires !a.BuildDrain?
    ensures LiveOk(Do(s, a))
  {
    var t := Do(s, a);
    assert By(a) >= 0 && By(a) in s.ops ==> WriterOk(s, By(a));
    assert Reach(t) == Reach(s) && t.live == s.live by {
      hide LiveOk;
    }
    forall c: nat ensures Between(t, c) <==> Between(s, c) {
      hide LiveOk, GateOk;
      SameBetween(s, a, c);
    }
    BetweenSame(s, t);
  }

  lemma SameBetween(s: State, a: Step, c: nat)
    requires Enabled(s, a) && !a.NoteStale? && !a.KeyWrite? && !a.Push?
    ensures Between(Do(s, a), c) <==> Between(s, c)
  {
    var t := Do(s, a);
    if Between(s, c) {
      var w :| w in s.ops && s.ops[w].cell == c && (s.ops[w].phase.Noted? || s.ops[w].phase.Stored?);
      assert w in t.ops && t.ops[w] == s.ops[w];
    }
    if Between(t, c) {
      var w :| w in t.ops && t.ops[w].cell == c && (t.ops[w].phase.Noted? || t.ops[w].phase.Stored?);
      assert w in s.ops && t.ops[w] == s.ops[w];
    }
  }

  /** The steps of a writer with keys change the entries of its own cell only. */
  lemma KeyBetween(s: State, a: Step, w: nat, c: nat)
    requires WritersOk(s) && Enabled(s, a) && a in {NoteStale(w), KeyWrite(w), Push(w)}
    ensures c != s.ops[w].cell ==> (Between(Do(s, a), c) <==> Between(s, c))
    ensures Between(Do(s, a), s.ops[w].cell) <==> !a.Push?
    ensures Between(s, s.ops[w].cell) <==> !a.NoteStale?
  {
    var t, o := Do(s, a), s.ops[w].cell;
    assert w in t.ops && t.ops[w].cell == o;
    if Between(s, c) {
      var u :| u in s.ops && s.ops[u].cell == c && (s.ops[u].phase.Noted? || s.ops[u].phase.Stored?);
      assert u != w ==> u in t.ops && t.ops[u] == s.ops[u];
    }
    if Between(t, c) {
      var u :| u in t.ops && t.ops[u].cell == c && (t.ops[u].phase.Noted? || t.ops[u].phase.Stored?);
      assert u != w ==> u in s.ops && t.ops[u] == s.ops[u];
    }
  }

  lemma KeyInv(s: State, a: Step, w: nat)
    requires Inv(s) && Enabled(s, a) && a in {NoteStale(w), KeyWrite(w), Push(w)}
    ensures LiveOk(Do(s, a))
  {
    var t, o := Do(s, a), s.ops[w].cell;
    assert WriterOk(s, w);
    assert s.built && Reach(t) == Reach(s) == |s.col|;
    forall c: nat, v: nat ensures (c, v) in t.live <==> c < Reach(t) && t.col[c] == v + 1 && !Between(t, c) {
      KeyBetween(s, a, w, c);
      hide Between;
    }
  }

  lemma BuildInv(s: State, a: Step)
    requires Inv(s) && Enabled(s, a) && (a.BuildScan? || a.BuildSet? || a.BuildDrain?)
    ensures LiveOk(Do(s, a))
  {
    var t := Do(s, a);
    forall c: nat ensures !Between(t, c) && !Between(s, c) {
      NoneBetween(s, c);
      SameBetween(s, a, c);
    }
    hide Between;
  }

  /** Without an index nobody has keys. */
  lemma NoneBetween(s: State, c: nat)
    requires WritersOk(s) && !s.built
    ensures !Between(s, c)
  {
    forall w | w in s.ops ensures !s.ops[w].phase.Noted? && !s.ops[w].phase.Stored? {
      assert WriterOk(s, w);
    }
  }

  lemma StepInv(s: State, a: Step)
    requires Inv(s) && Enabled(s, a)
    ensures Inv(Do(s, a))
  {
    hide WritersOk, GateOk, LiveOk;
    WritersInv(s, a);
    GateInv(s, a);
    match a {
      case NoteStale(w) => KeyInv(s, a, w);
      case KeyWrite(w) => KeyInv(s, a, w);
      case Push(w) => KeyInv(s, a, w);
      case BuildScan => BuildInv(s, a);
      case BuildSet => BuildInv(s, a);
      case BuildDrain => BuildInv(s, a);
      case _ => QuietInv(s, a);
    }
  }

  lemma {:induction false} RunInv(states: seq<State>, steps: seq<Step>, i: nat)
    requires Run(states, steps) && i < |states|
    ensures Inv(states[i])
  {
    if i == 0 {
      StartInv(states[0]);
    } else {
      RunInv(states, steps, i - 1);
      StepInv(states[i - 1], steps[i - 1]);
    }
  }

  /**
   No row is lost: over every run, once there is an index, its entries for a cell nobody is changing are exactly
   the value of that cell. With no writer under way this holds of every cell.
   */
  lemma IndexIsColumn(states: seq<State>, steps: seq<Step>, i: nat)
    requires Run(states, steps) && i < |states| && states[i].built
    ensures forall c: nat, v: nat | !Between(states[i], c) :: (c, v) in states[i].live <==>
      c < |states[i].col| && states[i].col[c] == v + 1
    ensures states[i].ops == map[] ==> forall c: nat, v: nat :: (c, v) in states[i].live <==>
      c < |states[i].col| && states[i].col[c] == v + 1
  {
    RunInv(states, steps, i);
  }

  // ---- What was asked for is written ----

  ghost predicate UnderWay(s: State, c: nat) {
    exists w | w in s.ops :: s.ops[w].cell == c
  }

  /** A step changes a cell only to what a writer of that cell was told to write. */
  lemma CellChanges(s: State, a: Step, c: nat)
    requires Inv(s) && Enabled(s, a) && c < |s.col|
    ensures |Do(s, a).col| == |s.col|
    ensures Do(s, a).col[c] == s.col[c] || exists w | w in s.ops :: s.ops[w].cell == c && s.ops[w].x == Do(s, a).col[c]
  {
    hide Inv;
  }

  /** A cell that no writer has under way keeps its content. */
  lemma CellKept(s: State, a: Step, c: nat)
    requires Inv(s) && Enabled(s, a) && c < |s.col| && !UnderWay(s, c)
    ensures |Do(s, a).col| == |s.col| && Do(s, a).col[c] == s.col[c]
  {
    CellChanges(s, a, c);
  }

  /** A writer keeps its cell and its content to the end, and ends only when the cell has that content. */
  lemma WriterKeeps(s: State, a: Step, w: nat)
    requires Inv(s) && Enabled(s, a) && w in s.ops
    ensures var t, o := Do(s, a), s.ops[w];
      && o.cell < |t.col| == |s.col|
      && if w in t.ops then t.ops[w].cell == o.cell && t.ops[w].x == o.x else t.col[o.cell] == o.x
  {
    assert WriterOk(s, w);
    hide Inv;
  }

  ghost predicate Begins(a: Step, w: nat) {
    a.Begin? && a.w == w
  }

  lemma NotBegun(s: State, a: Step, w: nat)
    requires Enabled(s, a) && w in Do(s, a).ops && !Begins(a, w)
    ensures w in s.ops
  {
  }

  /** What a writer is told to do, from its begin at step `b` on. */
  lemma {:induction false} SinceBegun(states: seq<State>, steps: seq<Step>, b: nat, k: nat, w: nat, c: nat, x: nat)
    requires Run(states, steps) && b < k < |states| && steps[b] == Begin(w, c, x) && w in states[k].ops
    requires forall j | b < j < k :: !Begins(steps[j], w)
    ensures states[k].ops[w].cell == c && states[k].ops[w].x == x
  {
    hide Enabled, Do, Inv, Start, Begins;
    if k == b + 1 {
      JustBegun(states[b], w, c, x);
    } else {
      NotBegun(states[k - 1], steps[k - 1], w);
      SinceBegun(states, steps, b, k - 1, w, c, x);
      RunInv(states, steps, k - 1);
      WriterKeeps(states[k - 1], steps[k - 1], w);
    }
  }

  lemma JustBegun(s: State, w: nat, c: nat, x: nat)
    requires Enabled(s, Begin(w, c, x))
    ensures Do(s, Begin(w, c, x)).ops == s.ops[w := Op(c, x, Begun)]
  {
  }

  /**
   No write is lost: over every run, when a writer that was told to give a cell a content ends, by the gate, by the lock
   or with the keys, the cell has that content.
   */
  lemma WriteTakesEffect(states: seq<State>, steps: seq<Step>, b: nat, k: nat, w: nat, c: nat, x: nat)
    requires Run(states, steps) && b < k < |steps| && steps[b] == Begin(w, c, x)
    requires w in states[k].ops && w !in states[k + 1].ops && forall j | b < j < k :: !Begins(steps[j], w)
    ensures c < |states[k + 1].col| && states[k + 1].col[c] == x
  {
    hide Enabled, Do, Inv, Start, Begins;
    SinceBegun(states, steps, b, k, w, c, x);
    RunInv(states, steps, k);
    WriterKeeps(states[k], steps[k], w);
  }

  /** The content last begun for a cell before state `i`, or what it had at the start. */
  ghost function LastBegun(states: seq<State>, steps: seq<Step>, i: nat, c: nat): nat
    requires i <= |steps| < |states| && c < |states[0].col|
  {
    if i == 0 then states[0].col[c]
    else if steps[i - 1].Begin? && steps[i - 1].cell == c then steps[i - 1].x
    else LastBegun(states, steps, i - 1, c)
  }

  /** What a cell has, or will have once its writer is done. */
  ghost predicate Holds(s: State, c: nat, x: nat) {
    && c < |s.col| && (!UnderWay(s, c) ==> s.col[c] == x)
    && forall w | w in s.ops && s.ops[w].cell == c :: s.ops[w].x == x
  }

  lemma HoldsStep(s: State, a: Step, c: nat, x: nat)
    requires Inv(s) && Enabled(s, a) && Holds(s, c, x)
    ensures Holds(Do(s, a), c, if a.Begin? && a.cell == c then a.x else x)
  {
    var t := Do(s, a);
    CellChanges(s, a, c);
    if a.Begin? && a.cell == c {
      assert a.w in t.ops && t.ops[a.w].cell == c;
    } else {
      forall w | w in t.ops && t.ops[w].cell == c ensures t.ops[w].x == x {
        OldWriter(s, a, w, c);
      }
      if !UnderWay(t, c) && UnderWay(s, c) {
        var w :| w in s.ops && s.ops[w].cell == c;
        WriterKeeps(s, a, w);
      }
    }
  }

  lemma OldWriter(s: State, a: Step, w: nat, c: nat)
    requires Inv(s) && Enabled(s, a) && w in Do(s, a).ops && Do(s, a).ops[w].cell == c && !Begins(a, w)
    ensures w in s.ops && s.ops[w].cell == c && s.ops[w].x == Do(s, a).ops[w].x
  {
    NotBegun(s, a, w);
    WriterKeeps(s, a, w);
  }

  lemma {:induction false} HoldsLast(states: seq<State>, steps: seq<Step>, i: nat, c: nat)
    requires Run(states, steps) && i < |states| && c < |states[0].col|
    ensures Holds(states[i], c, LastBegun(states, steps, i, c))
  {
    if i > 0 {
      HoldsLast(states, steps, i - 1, c);
      RunInv(states, steps, i - 1);
      hide Inv, Holds, Do, Enabled;
      HoldsStep(states[i - 1], steps[i - 1], c, LastBegun(states, steps, i - 1, c));
    }
  }

  /**
   Over every run: a cell nobody is writing has the content last begun for it, and the index, once there is one, has
   exactly that value for it. So no row is lost, by whichever way it was written.
   */
  lemma IndexIsLastBegun(states: seq<State>, steps: seq<Step>, i: nat, c: nat)
    requires Run(states, steps) && i < |states| && c < |states[0].col| && !UnderWay(states[i], c)
    ensures c < |states[i].col| && states[i].col[c] == LastBegun(states, steps, i, c)
    ensures states[i].built ==> forall v: nat :: (c, v) in states[i].live <==> LastBegun(states, steps, i, c) == v + 1
  {
    HoldsLast(states, steps, i, c);
    if states[i].built {
      IndexIsColumn(states, steps, i);
      assert !Between(states[i], c);
    }
  }

  /** While a barrier is held, no writer is where it could write a cell. */
  lemma BarrierStopsWriters(states: seq<State>, steps: seq<Step>, i: nat)
    requires Run(states, steps) && i < |states| && states[i].lock.BarHeld?
    ensures forall w | w in states[i].ops ::
      var p := states[i].ops[w].phase; p.Begun? || p.AtGate? || p.AtLock? || p.AtKeys?
    ensures forall a | Enabled(states[i], a) :: Do(states[i], a).col == states[i].col
  {
    RunInv(states, steps, i);
    var s := states[i];
    forall w | w in s.ops ensures var p := s.ops[w].phase; p.Begun? || p.AtGate? || p.AtLock? || p.AtKeys? {
      assert WriterOk(s, w);
    }
  }

  // ---- What a build and a barrier achieve ----

  ghost predicate Building(s: State) {
    s.lock.BuildLocked? || s.lock.BuildClosed? || s.lock.Scanning? || s.lock.Built?
  }

  lemma LockTaken(s: State, a: Step)
    requires Enabled(s, a)
    ensures a.BuildLock? ==> Building(Do(s, a))
    ensures a.BarLock? ==> BarComing(Do(s, a))
  {
  }

  lemma BuildStep(s: State, a: Step)
    requires Inv(s) && Enabled(s, a) && (Building(s) || s.built)
    ensures Building(Do(s, a)) || Do(s, a).built
  {
    assert By(a) >= 0 && By(a) in s.ops ==> WriterOk(s, By(a));
    hide WritersOk, LiveOk;
  }

  /** Over every run: a build that has given the lock back leaves an index. */
  lemma {:induction false} BuildMakesIndex(states: seq<State>, steps: seq<Step>, j: nat, i: nat)
    requires Run(states, steps) && j < i < |states| && steps[j].BuildLock?
    ensures Building(states[i]) || states[i].built
    decreases i
  {
    hide Inv, Building, Do, Enabled, Start;
    if i == j + 1 {
      LockTaken(states[j], steps[j]);
    } else {
      BuildMakesIndex(states, steps, j, i - 1);
      RunInv(states, steps, i - 1);
      BuildStep(states[i - 1], steps[i - 1]);
    }
  }

  ghost predicate BarComing(s: State) {
    s.lock.BarLocked? || s.lock.BarClosed? || s.lock.BarDrained?
  }

  lemma BarStep(s: State, a: Step)
    requires Inv(s) && Enabled(s, a) && BarComing(s)
    ensures BarComing(Do(s, a)) || Do(s, a).lock.BarHeld?
  {
    assert By(a) >= 0 && By(a) in s.ops ==> WriterOk(s, By(a));
    hide WritersOk, LiveOk;
  }

  /** Over every run: a barrier that has given the lock back was held in between. */
  lemma {:induction false} BarrierWasHeld(states: seq<State>, steps: seq<Step>, j: nat, i: nat)
    requires Run(states, steps) && j < i < |states| && steps[j].BarLock?
    ensures BarComing(states[i]) || exists k :: j < k <= i && states[k].lock.BarHeld?
    decreases i
  {
    hide Inv, BarComing, Do, Enabled, Start;
    if i == j + 1 {
      LockTaken(states[j], steps[j]);
    } else {
      BarrierWasHeld(states, steps, j, i - 1);
      if BarComing(states[i - 1]) {
        RunInv(states, steps, i - 1);
        BarStep(states[i - 1], steps[i - 1]);
      }
    }
  }

  /** The gate is closed for good once there is an index, and before only while a builder or a barrier needs it so. */
  ghost predicate ClosedOk(s: State) {
    s.closed && !s.built ==>
      s.lock.BuildClosed? || s.lock.Scanning? || s.lock.BarClosed? || s.lock.BarDrained? || s.lock.BarHeld?
  }

  lemma ClosedStep(s: State, a: Step)
    requires Inv(s) && Enabled(s, a) && ClosedOk(s)
    ensures ClosedOk(Do(s, a))
  {
    assert By(a) >= 0 && By(a) in s.ops ==> WriterOk(s, By(a));
    hide WritersOk, LiveOk;
  }

  lemma {:induction false} GateReopens(states: seq<State>, steps: seq<Step>, i: nat)
    requires Run(states, steps) && i < |states|
    ensures ClosedOk(states[i])
  {
    if i > 0 {
      GateReopens(states, steps, i - 1);
      RunInv(states, steps, i - 1);
      hide Inv, ClosedOk, Do, Enabled;
      ClosedStep(states[i - 1], steps[i - 1]);
    }
  }

  /** On the way of a writer that finds an index. */
  ghost predicate OnKeysWay(s: State, w: nat) {
    s.built && (w in s.ops ==> s.ops[w].phase.Begun? || s.ops[w].phase.AtKeys? || HasKeys(s.ops[w].phase))
  }

  lemma BeginsOnWay(s: State, a: Step, w: nat)
    requires Enabled(s, a) && Begins(a, w) && s.built
    ensures OnKeysWay(Do(s, a), w)
  {
  }

  lemma KeysWayStep(s: State, a: Step, w: nat)
    requires Inv(s) && Enabled(s, a) && OnKeysWay(s, w)
    ensures OnKeysWay(Do(s, a), w)
  {
    hide WritersOk, LiveOk;
  }

  /** Over every run: a writer that begins when there is an index never goes to the gate or waits for the write lock. */
  lemma {:induction false} IndexedWriterSkipsLock(states: seq<State>, steps: seq<Step>, b: nat, k: nat, w: nat)
    requires Run(states, steps) && b < k < |states| && Begins(steps[b], w) && states[b].built
    ensures OnKeysWay(states[k], w)
    decreases k
  {
    hide Inv, OnKeysWay, Do, Enabled, Start;
    if k == b + 1 {
      BeginsOnWay(states[b], steps[b], w);
    } else {
      IndexedWriterSkipsLock(states, steps, b, k - 1, w);
      RunInv(states, steps, k - 1);
      KeysWayStep(states[k - 1], steps[k - 1], w);
    }
  }

  // ---- Every call ends ----

  /** Steps that begin a call; all others bring one closer to its end. */
  ghost predicate Starts(a: Step) {
    a.Begin? || a.BuildLock? || a.BarLock?
  }

  /** The steps a writer may still need. */
  ghost function Rank(p: Phase): nat {
    match p
    case Begun => 9
    case AtGate => 8
    case AtLock => 7
    case InLock => 6
    case AtKeys => 5
    case Keyed => 4
    case Noted => 3
    case Stored => 2
    case Pushed => 1
    case InGate => 2
    case WroteInGate => 1
    case ToWrite => 2
    case WroteInLock => 1
  }

  /** The steps a builder or a barrier may still need. */
  ghost function LockRank(s: State): nat {
    match s.lock
    case Open => 0
    case Writer(_) => 0
    case BuildLocked => |s.col| + 4
    case BuildClosed => |s.col| + 3
    case Scanning(i) => if i <= |s.col| then |s.col| - i + 2 else 2
    case Built => 1
    case BarLocked => 5
    case BarClosed => 4
    case BarDrained => 3
    case BarHeld => 2
    case BarOpened => 1
  }

  /** One element for each step a writer may still need. */
  ghost function Steps(ops: map<nat, Op>): set<(nat, nat)> {
    set w, k: nat | w in ops && k < Rank(ops[w].phase) :: (w, k)
  }

  ghost function Work(s: State): nat {
    |Steps(s.ops)| + LockRank(s)
  }

  lemma {:induction false} Smaller(x: set<(nat, nat)>, y: set<(nat, nat)>)
    requires x < y
    ensures |x| < |y|
    decreases |x|
  {
    if x == {} {
      var e :| e in y;
      assert |y| == |y - {e}| + 1;
    } else {
      var e, z :| e in x && z in y && z !in x;
      assert z in y - {e} && z !in x - {e};
      Smaller(x - {e}, y - {e});
    }
  }

  lemma FewerSteps(ops: map<nat, Op>, ops': map<nat, Op>, w: nat)
    requires w in ops && ops' - {w} == ops - {w}
    requires w in ops' ==> Rank(ops'[w].phase) < Rank(ops[w].phase)
    ensures |Steps(ops')| < |Steps(ops)|
  {
    forall u, k | (u, k) in Steps(ops') ensures (u, k) in Steps(ops) {
      assert u != w ==> u in ops' - {w} && u in ops - {w} && ops'[u] == (ops' - {w})[u] && ops[u] == (ops - {w})[u];
    }
    var k: nat := Rank(ops[w].phase) - 1;
    assert (w, k) in Steps(ops) && (w, k) !in Steps(ops');
    Smaller(Steps(ops'), Steps(ops));
  }

  lemma RankDrops(s: State, a: Step)
    requires Enabled(s, a) && !Starts(a) && By(a) >= 0
    ensures var w, t := By(a), Do(s, a);
      w in s.ops && (w in t.ops ==> Rank(t.ops[w].phase) < Rank(s.ops[w].phase))
  {
  }

  lemma OtherRanksStay(s: State, a: Step)
    requires Enabled(s, a) && By(a) >= 0
    ensures Do(s, a).ops - {By(a)} == s.ops - {By(a)}
  {
    var w, t := By(a), Do(s, a);
    assert t.ops == if w in t.ops then s.ops[w := t.ops[w]] else s.ops - {w};
    hide Do, Enabled, By;
  }

  lemma LockRankStays(s: State, a: Step)
    requires Enabled(s, a) && !Starts(a) && By(a) >= 0
    ensures LockRank(Do(s, a)) <= LockRank(s)
  {
  }

  lemma WriterProgress(s: State, a: Step)
    requires Enabled(s, a) && !Starts(a) && By(a) >= 0
    ensures Work(Do(s, a)) < Work(s)
  {
    hide Do, Enabled, Rank, LockRank, Steps, Starts, By;
    RankDrops(s, a);
    OtherRanksStay(s, a);
    LockRankStays(s, a);
    FewerSteps(s.ops, Do(s, a).ops, By(a));
  }

  lemma LockProgress(s: State, a: Step)
    requires Enabled(s, a) && !Starts(a) && By(a) < 0
    ensures Work(Do(s, a)) < Work(s)
  {
  }

  lemma Progress(s: State, a: Step)
    requires Enabled(s, a) && !Starts(a)
    ensures Work(Do(s, a)) < Work(s)
  {
    if By(a) >= 0 {
      WriterProgress(s, a);
    } else {
      LockProgress(s, a);
    }
  }

  /** Over every run: without a new call, all steps from `i` on are soon made. */
  lemma {:induction false} Ends(states: seq<State>, steps: seq<Step>, i: nat, j: nat)
    requires Run(states, steps) && i <= j < |states| && forall k | i <= k < j :: !Starts(steps[k])
    ensures j - i + Work(states[j]) <= Work(states[i])
    decreases j
  {
    if i < j {
      hide Work, Do, Enabled, Starts, Start;
      Ends(states, steps, i, j - 1);
      Progress(states[j - 1], steps[j - 1]);
    }
  }

  ghost predicate Quiet(s: State) {
    s.ops == map[] && s.lock.Open?
  }

  ghost predicate CanGoOn(s: State) {
    exists a :: Enabled(s, a) && !Starts(a)
  }

  /** The step a writer makes next, if it need not wait for the lock or the keys. */
  lemma WriterGoesOn(s: State, w: nat)
    requires w in s.ops && WriterOk(s, w)
    requires s.ops[w].phase.AtLock? ==> s.lock.Open?
    requires s.ops[w].phase.AtKeys? ==> !s.lock.BarHeld? && !s.lock.BarOpened?
    ensures CanGoOn(s)
  {
    var a := match s.ops[w].phase
      case Begun => SeeBuilt(w)
      case AtGate => TryGate(w)
      case InGate => GateWrite(w)
      case WroteInGate => GateLeave(w)
      case AtLock => TakeLock(w)
      case InLock => LockSees(w)
      case ToWrite => LockWrite(w)
      case WroteInLock => LockLeave(w)
      case AtKeys => TakeKeys(w)
      case Keyed => NoteStale(w)
      case Noted => KeyWrite(w)
      case Stored => Push(w)
      case Pushed => KeyLeave(w);
    assert Enabled(s, a) && !Starts(a);
  }

  /** The step a builder or a barrier makes next. */
  ghost function LockNext(s: State): Step {
    match s.lock
    case BuildLocked => if s.built then BuildGivesUp else BuildClose
    case BuildClosed => BuildDrain
    case Scanning(i) => if i < |s.col| then BuildScan else BuildSet
    case Built => BuildUnlock
    case BarLocked => BarClose
    case BarClosed => BarDrain
    case BarDrained => BarKeys
    case BarHeld => BarOpen
    case _ => BarUnlock
  }

  lemma LockGoesOn(s: State)
    requires WritersOk(s) && GateOk(s) && LiveOk(s) && !s.lock.Open?
    ensures CanGoOn(s)
  {
    if s.lock.Writer? {
      assert WriterOk(s, s.lock.id);
      WriterGoesOn(s, s.lock.id);
    } else if s.lock.BarDrained? && exists w :: w in s.ops && HasKeys(s.ops[w].phase) {
      var w :| w in s.ops && HasKeys(s.ops[w].phase);
      assert WriterOk(s, w);
      WriterGoesOn(s, w);
    } else if (s.lock.BuildClosed? || s.lock.BarClosed?) && s.inside != {} {
      var w :| w in s.inside;
      assert w in s.ops && WriterOk(s, w);
      WriterGoesOn(s, w);
    } else {
      var a := LockNext(s);
      hide WritersOk;
      assert !Starts(a);
      assert Enabled(s, a);
    }
  }

  /** Over every run: as long as a call is under way, one of them can go on. Nobody waits for one that waits for it. */
  lemma NoDeadlock(states: seq<State>, steps: seq<Step>, i: nat)
    requires Run(states, steps) && i < |states| && !Quiet(states[i])
    ensures CanGoOn(states[i])
  {
    RunInv(states, steps, i);
    var s := states[i];
    if s.lock.Open? {
      var w :| w in s.ops;
      assert WriterOk(s, w);
      WriterGoesOn(s, w);
    } else {
      LockGoesOn(s);
    }
  }

  /** Every run can be brought to an end, and however it goes on without new calls it ends in as many steps at most. */
  lemma {:induction false} ComesToRest(states: seq<State>, steps: seq<Step>)
    returns (states': seq<State>, steps': seq<Step>)
    requires Run(states, steps)
    ensures Run(states', steps') && states <= states' && steps <= steps' && Quiet(states'[|steps'|])
    ensures forall k | |steps| <= k < |steps'| :: !Starts(steps'[k])
    ensures |steps'| - |steps| <= Work(states[|steps|])
    decreases Work(states[|steps|])
  {
    var s := states[|steps|];
    if Quiet(s) {
      return states, steps;
    }
    NoDeadlock(states, steps, |steps|);
    var a :| Enabled(s, a) && !Starts(a);
    Progress(s, a);
    var more := RunOn(states, steps, a);
    hide Work, Do, Enabled, Starts, Run;
    states', steps' := ComesToRest(more, steps + [a]);
    forall k | |steps| <= k < |steps'| ensures !Starts(steps'[k]) {
      assert k == |steps| ==> steps'[k] == (steps + [a])[k];
    }
  }

  lemma RunOn(states: seq<State>, steps: seq<Step>, a: Step) returns (more: seq<State>)
    requires Run(states, steps) && Enabled(states[|steps|], a)
    ensures more == states + [Do(states[|steps|], a)] && Run(more, steps + [a])
  {
    hide Do, Enabled, Start;
    more := states + [Do(states[|steps|], a)];
  }
}
