/**
 Reading a bucket without a lock while its writer works (crates/enchudb-engine/src/append_bucket.rs,
 `snapshot_marked_in`, `push_in`, `mark_stale`, `note_stale`, `compact_in_placed`, with the order of
 crates/enchudb-engine/src/himo_store.rs `set_indexed`), one atomic load or store at a time.

 One bucket, of one value: `holders` are the cells that hold the value. The writer is whoever has the lock of
 the value, so its operations follow one another. A backing that was replaced is never written again. Marks may be
 given up at any moment (crates/enchudb-engine/src/lockfree_cylinder.rs, `disable_marks`); a reader asks whether they
 are in use before it takes its backing.
 */
module BucketSnapshot {
  import opened Wrappers
  import opened BucketReads

  /** `last` are the holders at the moment the backing was replaced. */
  datatype Backing = Backing(data: seq<nat>, stale: set<nat>, exact: bool, last: Option<set<nat>>)

  datatype Writer =
    | Ready
    | Entering(eid: nat)   // the cell has the value, the entry is not there yet
    | Leaving(eid: nat)    // the entry is marked, the flag is not up yet
    | Flagged(eid: nat)    // the flag is up, the cell still has the value
    | Swapped              // the compacted backing is in place, the flag not down yet

  /**
   `on` is whether marks were in use; `at` the backing loaded first and `n` its length; `fixed` the holders when the
   answer was settled, and
   `gone` the marks there were; `got` are the entries taken so far, from the first `i` places: those without a
   mark, or, where marks do not do, those whose cell has the value when it is looked at.
   */
  datatype Reader =
    | Idle
    | Asked(on: bool)
    | HasBacking(on: bool, at: nat)
    | HasLength(on: bool, at: nat, n: nat)
    | HasExact(on: bool, at: nat, n: nat, exact: bool, fixed: set<nat>, gone: set<nat>)
    | HasFlag(on: bool, at: nat, n: nat, exact: bool, fixed: set<nat>, gone: set<nat>, flag: bool, now: set<nat>)
    | Clean(at: nat, n: nat, now: set<nat>)
    | Copying(at: nat, n: nat, fixed: set<nat>, gone: set<nat>, i: nat, got: seq<nat>)
    | Checking(at: nat, n: nat, i: nat, got: seq<nat>)

  datatype State = State(backings: seq<Backing>, removed: bool, holders: set<nat>, on: bool, writer: Writer,
    reader: Reader)

  datatype Step =
    | WriteCell(eid: nat)
    | Push
    | PushGrowing
    | MarkStale(eid: nat, place: Option<nat>, marks: bool)
    | RaiseFlag
    | ClearCell
    | Swap(kept: seq<nat>)
    | LowerFlag
    | GiveUpMarks
    | LoadOn
    | LoadBacking
    | LoadLength
    | LoadExact
    | LoadFlag
    | LoadBackingAgain
    | CopyEntry
    | CheckEntry

  ghost function Cur(s: State): Backing
    requires s.backings != []
  {
    s.backings[|s.backings| - 1]
  }

  ghost function WithCur(s: State, b: Backing): State
    requires s.backings != []
  {
    s.(backings := s.backings[|s.backings| - 1 := b])
  }

  /** Put a new backing in place of the current one. */
  ghost function Replaced(s: State, b: Backing): State
    requires s.backings != []
  {
    var old' := Cur(s).(last := Some(s.holders));
    s.(backings := s.backings[|s.backings| - 1 := old'] + [b])
  }

  ghost predicate Unfinished(s: State, at: nat, n: nat, i: nat) {
    i < n && at < |s.backings| && n <= |s.backings[at].data|
  }

  ghost predicate Enabled(s: State, a: Step)
    requires s.backings != []
  {
    match a
    case WriteCell(e) => s.writer.Ready? && e !in s.holders
    case Push => s.writer.Entering?
    case PushGrowing => s.writer.Entering?
    case MarkStale(e, p, marks) => s.writer.Ready? && e in s.holders && (s.on ==> marks)
      && (p.Some? ==> p.value < |Cur(s).data| && Cur(s).data[p.value] == e && p.value !in Cur(s).stale)
    case RaiseFlag => s.writer.Leaving?
    case ClearCell => s.writer.Flagged?
    case Swap(kept) => s.writer.Ready? && NoRepeat(kept)
      && forall e :: e in kept <==> e in Cur(s).data && e in s.holders
    case LowerFlag => s.writer.Swapped?
    case GiveUpMarks => true
    case LoadOn => !(s.reader.Copying? && s.reader.i < s.reader.n) && !(s.reader.Checking? && s.reader.i < s.reader.n)
    case LoadBacking => s.reader.Asked?
    case LoadLength => s.reader.HasBacking? && s.reader.at < |s.backings|
    case LoadExact => s.reader.HasLength? && s.reader.at < |s.backings|
    case LoadFlag => s.reader.HasExact?
    case LoadBackingAgain => s.reader.HasFlag?
    case CopyEntry => s.reader.Copying? && Unfinished(s, s.reader.at, s.reader.n, s.reader.i)
    case CheckEntry => s.reader.Checking? && Unfinished(s, s.reader.at, s.reader.n, s.reader.i)
  }

  ghost function Do(s: State, a: Step): State
    requires s.backings != [] && Enabled(s, a)
  {
    match a
    case WriteCell(e) => s.(holders := s.holders + {e}, writer := Entering(e))
    case Push => WithCur(s, Cur(s).(data := Cur(s).data + [s.writer.eid])).(writer := Ready)
    case PushGrowing => Replaced(s, Cur(s).(data := Cur(s).data + [s.writer.eid])).(writer := Ready)
    case MarkStale(e, p, marks) =>
      var b := if !marks then Cur(s) else if p.Some? then Cur(s).(stale := Cur(s).stale + {p.value})
        else Cur(s).(exact := false);
      WithCur(s, b).(writer := Leaving(e))
    case RaiseFlag => s.(removed := true, writer := Flagged(s.writer.eid))
    case ClearCell => s.(holders := s.holders - {s.writer.eid}, writer := Ready)
    case Swap(kept) => Replaced(s, Backing(kept, {}, true, None)).(writer := Swapped)
    case LowerFlag => s.(removed := false, writer := Ready)
    case GiveUpMarks => s.(on := false)
    case LoadOn => s.(reader := Asked(s.on))
    case LoadBacking => s.(reader := HasBacking(s.reader.on, |s.backings| - 1))
    case LoadLength => s.(reader := HasLength(s.reader.on, s.reader.at, |s.backings[s.reader.at].data|))
    case LoadExact =>
      var r, b := s.reader, s.backings[s.reader.at];
      var fixed := if b.last.Some? then b.last.value else s.holders;
      s.(reader := HasExact(r.on, r.at, r.n, b.exact, fixed, b.stale))
    case LoadFlag =>
      var r := s.reader;
      s.(reader := HasFlag(r.on, r.at, r.n, r.exact, r.fixed, r.gone, s.removed, s.holders))
    case LoadBackingAgain =>
      var r := s.reader;
      if !r.flag && r.at == |s.backings| - 1 then s.(reader := Clean(r.at, r.n, r.now))
      else if r.exact && r.on then s.(reader := Copying(r.at, r.n, r.fixed, r.gone, 0, []))
      else s.(reader := Checking(r.at, r.n, 0, []))
    case CopyEntry =>
      var r := s.reader;
      var b := s.backings[r.at];
      s.(reader := Copying(r.at, r.n, r.fixed, r.gone, r.i + 1, if r.i in b.stale then r.got
        else r.got + [b.data[r.i]]))
    case CheckEntry =>
      var r := s.reader;
      var e := s.backings[r.at].data[r.i];
      s.(reader := Checking(r.at, r.n, r.i + 1, if e in s.holders && e !in r.got then r.got + [e] else r.got))
  }

  ghost predicate Start(s: State) {
    && s.backings == [Backing([], {}, true, None)] && !s.removed && s.holders == {} && s.writer.Ready? && s.reader.Idle?
  }

  ghost predicate Run(states: seq<State>, steps: seq<Step>) {
    && |states| == |steps| + 1 && Start(states[0])
    && forall i | 0 <= i < |steps| ::
      states[i].backings != [] && Enabled(states[i], steps[i]) && states[i + 1] == Do(states[i], steps[i])
  }

  // ---- Invariant ----

  /** Entries without a mark are holders, and no two are the same. */
  ghost predicate Fresh(b: Backing, n: int, gone: set<nat>, h: set<nat>)
    requires n <= |b.data|
  {
    && (forall i | 0 <= i < n && i !in gone :: b.data[i] in h)
    && (forall i, j | 0 <= i < j < n && i !in gone && j !in gone :: b.data[i] != b.data[j])
  }

  ghost predicate BackingOk(b: Backing, on: bool, holders: set<nat>) {
    on && b.exact ==> Fresh(b, |b.data|, b.stale, if b.last.Some? then b.last.value else holders)
  }

  /** With the flag down, every entry is a holder, once. */
  ghost predicate CurOk(s: State) {
    && s.backings != [] && Cur(s).last.None?
    && (!s.removed || s.writer.Swapped? ==> Fresh(Cur(s), |Cur(s).data|, {}, s.holders))
  }

  ghost predicate BackingsOk(s: State) {
    forall k | 0 <= k < |s.backings| ::
      BackingOk(s.backings[k], s.on, s.holders) && (k < |s.backings| - 1 ==> s.backings[k].last.Some?)
  }

  ghost predicate WriterOk(s: State) {
    match s.writer
    case Ready => true
    case Entering(e) => e in s.holders && s.backings != []
      && (forall i | 0 <= i < |Cur(s).data| && i !in Cur(s).stale :: s.on && Cur(s).exact ==> Cur(s).data[i] != e)
      && (!s.removed ==> e !in Cur(s).data)
    case Leaving(e) => s.backings != []
      && (forall i | 0 <= i < |Cur(s).data| && i !in Cur(s).stale :: s.on && Cur(s).exact ==> Cur(s).data[i] != e)
    case Flagged(e) => s.removed && s.backings != []
      && (forall i | 0 <= i < |Cur(s).data| && i !in Cur(s).stale :: s.on && Cur(s).exact ==> Cur(s).data[i] != e)
    case Swapped => true
  }

  ghost predicate ReaderOk(s: State) {
    match s.reader
    case Idle => true
    case Asked(_) => true
    case HasBacking(_, at) => at < |s.backings|
    case HasLength(_, at, n) => at < |s.backings| && n <= |s.backings[at].data|
    case HasExact(_, at, n, _, _, gone) =>
      at < |s.backings| && n <= |s.backings[at].data| && gone <= s.backings[at].stale
    case HasFlag(_, at, n, _, _, gone, flag, now) =>
      at < |s.backings| && n <= |s.backings[at].data| && gone <= s.backings[at].stale
      && (!flag && at == |s.backings| - 1 ==> Fresh(s.backings[at], n, {}, now))
    case Clean(at, n, now) => at < |s.backings| && n <= |s.backings[at].data| && Fresh(s.backings[at], n, {}, now)
    case Copying(at, n, _, gone, i, _) =>
      at < |s.backings| && n <= |s.backings[at].data| && i <= n && gone <= s.backings[at].stale
    case Checking(at, n, i, got) => at < |s.backings| && n <= |s.backings[at].data| && i <= n && NoRepeat(got)
  }

  ghost predicate Inv(s: State) {
    CurOk(s) && BackingsOk(s) && WriterOk(s) && ReaderOk(s)
  }

  lemma StartInv(s: State)
    requires Start(s)
    ensures Inv(s)
  {
  }

  ghost predicate Reads(a: Step) {
    a.LoadOn? || a.LoadBacking? || a.LoadLength? || a.LoadExact? || a.LoadFlag? || a.LoadBackingAgain? || a.CopyEntry?
      || a.CheckEntry?
  }

  /** What the writer does to a backing leaves what a reader took from it. */
  ghost predicate Keeps(s: State, t: State) {
    && |s.backings| <= |t.backings| && s.reader == t.reader
    && forall k | 0 <= k < |s.backings| ::
        && s.backings[k].data <= t.backings[k].data && s.backings[k].stale <= t.backings[k].stale
  }

  lemma ReaderKept(s: State, t: State)
    requires ReaderOk(s) && Keeps(s, t)
    ensures ReaderOk(t)
  {
  }

  lemma WriterKeeps(s: State, a: Step)
    requires Inv(s) && Enabled(s, a) && !Reads(a)
    ensures Keeps(s, Do(s, a))
  {
  }

  ghost predicate Sound(s: State) {
    CurOk(s) && BackingsOk(s) && WriterOk(s)
  }

  /** The current backing and the holders change; those replaced before stay as they are. */
  lemma CurChanged(s: State, t: State)
    requires Sound(s) && t.backings != [] && t.backings == s.backings[|s.backings| - 1 := Cur(t)] && t.on == s.on
    requires Cur(t).last.None? && BackingOk(Cur(t), t.on, t.holders)
    ensures BackingsOk(t)
  {
    forall k | 0 <= k < |t.backings|
      ensures BackingOk(t.backings[k], t.on, t.holders) && (k < |t.backings| - 1 ==> t.backings[k].last.Some?)
    {
      assert BackingOk(s.backings[k], s.on, s.holders);
    }
  }

  lemma CurReplaced(s: State, b: Backing)
    requires Sound(s) && b.last.None? && BackingOk(b, s.on, s.holders)
    ensures BackingsOk(Replaced(s, b))
  {
    var t := Replaced(s, b);
    forall k | 0 <= k < |t.backings|
      ensures BackingOk(t.backings[k], t.on, t.holders) && (k < |t.backings| - 1 ==> t.backings[k].last.Some?)
    {
      if k < |s.backings| {
        assert BackingOk(s.backings[k], s.on, s.holders);
      }
    }
  }

  lemma PushFresh(b: Backing, e: nat, gone: set<nat>, h: set<nat>)
    requires Fresh(b, |b.data|, gone, h) && e in h && |b.data| !in gone
    requires forall i | 0 <= i < |b.data| && i !in gone :: b.data[i] != e
    ensures Fresh(b.(data := b.data + [e]), |b.data| + 1, gone, h)
  {
  }

  /** Marks are on entries only. */
  ghost predicate MarksIn(s: State) {
    s.backings != [] && forall i | i in Cur(s).stale :: i < |Cur(s).data|
  }

  lemma PushOk(s: State, grow: bool)
    requires Sound(s) && MarksIn(s) && s.writer.Entering?
    ensures var a := if grow then PushGrowing else Push; Sound(Do(s, a)) && MarksIn(Do(s, a))
  {
    var e, b := s.writer.eid, Cur(s);
    var c := b.(data := b.data + [e]);
    assert BackingOk(b, s.on, s.holders);
    if s.on && b.exact {
      PushFresh(b, e, b.stale, s.holders);
    }
    if !s.removed {
      PushFresh(b, e, {}, s.holders);
    }
    assert BackingOk(c, s.on, s.holders);
    if grow {
      CurReplaced(s, c);
    } else {
      CurChanged(s, Do(s, Push));
    }
  }

  lemma MarkOk(s: State, a: Step)
    requires Sound(s) && MarksIn(s) && a.MarkStale? && Enabled(s, a)
    ensures Sound(Do(s, a)) && MarksIn(Do(s, a))
  {
    var t := Do(s, a);
    assert BackingOk(Cur(s), s.on, s.holders);
    assert BackingOk(Cur(t), t.on, t.holders);
    CurChanged(s, t);
  }

  lemma CellOk(s: State, a: Step)
    requires Sound(s) && MarksIn(s) && Enabled(s, a) && (a.WriteCell? || a.RaiseFlag? || a.ClearCell? || a.LowerFlag?)
    ensures Sound(Do(s, a)) && MarksIn(Do(s, a))
  {
    var t := Do(s, a);
    assert BackingOk(Cur(s), s.on, s.holders);
    assert BackingOk(Cur(t), t.on, t.holders);
    assert s.backings == s.backings[|s.backings| - 1 := Cur(t)];
    CurChanged(s, t);
  }

  lemma SwapOk(s: State, kept: seq<nat>)
    requires Sound(s) && MarksIn(s) && Enabled(s, Swap(kept))
    ensures Sound(Do(s, Swap(kept))) && MarksIn(Do(s, Swap(kept)))
  {
    var b := Backing(kept, {}, true, None);
    assert Fresh(b, |kept|, {}, s.holders) by {
      assert forall i | 0 <= i < |kept| :: kept[i] in kept;
    }
    CurReplaced(s, b);
  }

  lemma OffOk(s: State)
    requires Sound(s) && MarksIn(s)
    ensures Sound(s.(on := false)) && MarksIn(s.(on := false))
  {
  }

  lemma ReadOk(s: State, a: Step)
    requires Inv(s) && Enabled(s, a) && Reads(a)
    ensures ReaderOk(Do(s, a))
  {
  }

  lemma StepInv(s: State, a: Step)
    requires s.backings != [] && Inv(s) && MarksIn(s) && Enabled(s, a)
    ensures Inv(Do(s, a)) && MarksIn(Do(s, a))
  {
    hide CurOk, BackingsOk, WriterOk, ReaderOk, MarksIn;
    if Reads(a) {
      ReadOk(s, a);
      SameBacking(s, Do(s, a));
    } else {
      WriterKeeps(s, a);
      ReaderKept(s, Do(s, a));
      match a {
        case Push => PushOk(s, false);
        case PushGrowing => PushOk(s, true);
        case MarkStale(_, _, _) => MarkOk(s, a);
        case GiveUpMarks => OffOk(s);
        case Swap(kept) => SwapOk(s, kept);
        case _ => CellOk(s, a);
      }
    }
  }

  lemma SameBacking(s: State, t: State)
    requires Sound(s) && MarksIn(s) && t == s.(reader := t.reader)
    ensures Sound(t) && MarksIn(t)
  {
  }

  lemma {:induction false} RunInv(states: seq<State>, steps: seq<Step>, i: nat)
    requires Run(states, steps) && i < |states|
    ensures Inv(states[i]) && MarksIn(states[i])
  {
    if i == 0 {
      StartInv(states[0]);
    } else {
      RunInv(states, steps, i - 1);
      StepInv(states[i - 1], steps[i - 1]);
    }
  }

  /** The read that loaded its backing at step `b` is still the one under way at `i`. */
  ghost predicate Since(states: seq<State>, steps: seq<Step>, b: nat, i: nat) {
    Run(states, steps) && b < i < |states| && steps[b].LoadBacking? && forall k | b < k < i :: !steps[k].LoadBacking?
  }

  ghost predicate HeldIn(states: seq<State>, b: nat, i: nat, h: set<nat>) {
    exists j :: b < j <= i && j < |states| && states[j].holders == h
  }

  lemma HeldLater(states: seq<State>, b: nat, i: nat, h: set<nat>)
    requires HeldIn(states, b, i, h)
    ensures HeldIn(states, b, i + 1, h)
  {
  }

  ghost predicate On(r: Reader, at: nat) {
    !r.Idle? && !r.Asked? ==> r.at == at
  }

  ghost function Fixed(r: Reader): Option<set<nat>> {
    if r.HasExact? || r.HasFlag? || r.Copying? then Some(r.fixed) else None
  }

  ghost function Now(r: Reader): Option<set<nat>> {
    if r.HasFlag? || r.Clean? then Some(r.now) else None
  }

  /** What one step does to the moments of a read of backing `at`. */
  lemma MomentStep(s: State, a: Step, at: nat)
    requires s.backings != [] && Enabled(s, a) && !a.LoadBacking? && at < |s.backings| && On(s.reader, at)
    ensures var t := Do(s, a);
      && at < |t.backings| && On(t.reader, at)
      && (t.backings[at].last == s.backings[at].last || t.backings[at].last == Some(t.holders))
      && (Fixed(t.reader).Some? ==> Fixed(t.reader) in {Fixed(s.reader), Some(t.holders), s.backings[at].last})
      && (Now(t.reader).Some? ==> Now(t.reader) in {Now(s.reader), Some(t.holders)})
  {
  }

  ghost predicate Inside(states: seq<State>, b: nat, i: nat, h: Option<set<nat>>) {
    h.Some? ==> HeldIn(states, b, i, h.value)
  }

  /** The moments a read goes by lie inside that read. */
  lemma {:induction false} Moments(states: seq<State>, steps: seq<Step>, b: nat, i: nat)
    requires Since(states, steps, b, i) && states[b].backings != []
    ensures var at, s := |states[b].backings| - 1, states[i];
      && at < |s.backings| && On(s.reader, at) && Inside(states, b, i, s.backings[at].last)
      && Inside(states, b, i, Fixed(s.reader)) && Inside(states, b, i, Now(s.reader))
  {
    hide Run, Inv, MarksIn, Enabled, Do, Inside, On, Fixed, Now;
    if i > b + 1 {
      Moments(states, steps, b, i - 1);
      MomentNext(states, steps, b, i);
    } else {
      FirstMoment(states, steps, b);
    }
  }

  lemma FirstMoment(states: seq<State>, steps: seq<Step>, b: nat)
    requires Since(states, steps, b, b + 1)
    ensures states[b].backings != []
    ensures var at, s := |states[b].backings| - 1, states[b + 1];
      && at < |s.backings| && On(s.reader, at) && Inside(states, b, b + 1, s.backings[at].last)
      && Inside(states, b, b + 1, Fixed(s.reader)) && Inside(states, b, b + 1, Now(s.reader))
  {
    RunInv(states, steps, b);
    assert CurOk(states[b]) && states[b + 1] == Do(states[b], steps[b]);
  }

  lemma MomentNext(states: seq<State>, steps: seq<Step>, b: nat, i: nat)
    requires Since(states, steps, b, i) && b + 1 < i && states[b].backings != []
    requires var at, s := |states[b].backings| - 1, states[i - 1];
      && at < |s.backings| && On(s.reader, at) && Inside(states, b, i - 1, s.backings[at].last)
      && Inside(states, b, i - 1, Fixed(s.reader)) && Inside(states, b, i - 1, Now(s.reader))
    ensures var at, s := |states[b].backings| - 1, states[i];
      && at < |s.backings| && On(s.reader, at) && Inside(states, b, i, s.backings[at].last)
      && Inside(states, b, i, Fixed(s.reader)) && Inside(states, b, i, Now(s.reader))
  {
    var at, s, a, t := |states[b].backings| - 1, states[i - 1], steps[i - 1], states[i];
    assert s.backings != [] && Enabled(s, a) && t == Do(s, a) && !a.LoadBacking?;
    hide Run, Enabled, Do, On, Fixed, Now;
    MomentStep(s, a, at);
    assert HeldIn(states, b, i, t.holders);
    StillInside(states, b, i - 1, s.backings[at].last);
    StillInside(states, b, i - 1, Fixed(s.reader));
    StillInside(states, b, i - 1, Now(s.reader));
  }

  lemma StillInside(states: seq<State>, b: nat, i: nat, h: Option<set<nat>>)
    requires Inside(states, b, i, h)
    ensures Inside(states, b, i + 1, h)
  {
    if h.Some? {
      HeldLater(states, b, i, h.value);
    }
  }

  /**
   Over every run: when a read needs no look at the column, all entries of its slice held the value at the
   moment the flag was read, and no two are the same entity.
   */
  lemma CleanReadIsSound(states: seq<State>, steps: seq<Step>, i: nat)
    requires Run(states, steps) && i < |states| && states[i].reader.Clean?
    ensures var r := states[i].reader;
      && r.at < |states[i].backings| && r.n <= |states[i].backings[r.at].data|
      && var slice := states[i].backings[r.at].data[..r.n];
      && NoRepeat(slice) && forall e | e in slice :: e in r.now
    ensures forall b | Since(states, steps, b, i) :: HeldIn(states, b, i, states[i].reader.now)
  {
    RunInv(states, steps, i);
    forall b | Since(states, steps, b, i) ensures HeldIn(states, b, i, states[i].reader.now) {
      RunInv(states, steps, b);
      Moments(states, steps, b, i);
    }
  }

  // ---- Reads that skip by marks ----

  /** A reader has asked for marks, was told they are in use, and has not looked yet whether they are complete. */
  ghost predicate Relying(r: Reader) {
    (r.Asked? || r.HasBacking? || r.HasLength?) && r.on
  }

  /** Whether marks may be given up while a reader relies on them. */
  ghost predicate Allowed(midRead: bool, s: State, a: Step) {
    a.GiveUpMarks? ==> midRead || !Relying(s.reader)
  }

  ghost predicate Follows(midRead: bool, states: seq<State>, steps: seq<Step>) {
    Run(states, steps) && forall i | 0 <= i < |steps| :: Allowed(midRead, states[i], steps[i])
  }

  ghost predicate MarkedOk(s: State)
    requires ReaderOk(s)
  {
    var r := s.reader;
    && (Relying(r) ==> s.on)
    && (r.HasExact? && r.exact && r.on ==> Fresh(s.backings[r.at], r.n, r.gone, r.fixed))
    && (r.HasFlag? && r.exact && r.on ==> Fresh(s.backings[r.at], r.n, r.gone, r.fixed))
    && (r.Copying? ==> CopyOk(s.backings[r.at], r.n, r.fixed, r.gone, r.i, r.got))
  }

  /** What has been copied from the first `i` places: entries that had no mark, each once. */
  ghost predicate CopyOk(b: Backing, n: nat, fixed: set<nat>, gone: set<nat>, i: nat, got: seq<nat>)
    requires i <= n <= |b.data|
  {
    && Fresh(b, n, gone, fixed) && NoRepeat(got) && (forall e | e in got :: e in fixed)
    && (forall e | e in got :: exists k :: 0 <= k < i && k !in gone && b.data[k] == e)
  }

  lemma CopyMore(b: Backing, n: nat, fixed: set<nat>, gone: set<nat>, i: nat, got: seq<nat>)
    requires i < n <= |b.data| && gone <= b.stale && CopyOk(b, n, fixed, gone, i, got)
    ensures CopyOk(b, n, fixed, gone, i + 1, if i in b.stale then got else got + [b.data[i]])
  {
    if i !in b.stale {
      assert b.data[i] in fixed && b.data[i] !in got;
      forall e | e in got + [b.data[i]] ensures exists k :: 0 <= k < i + 1 && k !in gone && b.data[k] == e {
        if e in got {
          var k :| 0 <= k < i && k !in gone && b.data[k] == e;
        }
      }
    }
  }

  lemma CopyKept(b: Backing, c: Backing, n: nat, fixed: set<nat>, gone: set<nat>, i: nat, got: seq<nat>)
    requires i <= n <= |b.data| && b.data <= c.data && CopyOk(b, n, fixed, gone, i, got)
    ensures CopyOk(c, n, fixed, gone, i, got)
  {
    forall e | e in got ensures exists k :: 0 <= k < i && k !in gone && c.data[k] == e {
      var k :| 0 <= k < i && k !in gone && b.data[k] == e;
      assert c.data[k] == e;
    }
  }

  lemma MarkedRead(s: State, a: Step)
    requires Inv(s) && MarkedOk(s) && Enabled(s, a) && Reads(a) && ReaderOk(Do(s, a))
    ensures MarkedOk(Do(s, a))
  {
    var r := s.reader;
    if a.CopyEntry? {
      CopyMore(s.backings[r.at], r.n, r.fixed, r.gone, r.i, r.got);
    } else {
      hide CurOk, WriterOk;
      if a.LoadExact? {
        assert BackingOk(s.backings[r.at], s.on, s.holders);
      }
    }
  }

  lemma MarkedKept(s: State, t: State)
    requires ReaderOk(s) && MarkedOk(s) && ReaderOk(t) && Keeps(s, t) && (t.on == s.on || !Relying(s.reader))
    ensures MarkedOk(t)
  {
    var r := s.reader;
    if r.Copying? {
      CopyKept(s.backings[r.at], t.backings[r.at], r.n, r.fixed, r.gone, r.i, r.got);
    }
  }

  lemma {:induction false} MarkedRun(states: seq<State>, steps: seq<Step>, i: nat)
    requires Follows(false, states, steps) && i < |states|
    ensures Inv(states[i]) && MarkedOk(states[i])
  {
    RunInv(states, steps, i);
    if i > 0 {
      MarkedRun(states, steps, i - 1);
      RunInv(states, steps, i - 1);
      var s, a := states[i - 1], steps[i - 1];
      assert Enabled(s, a) && states[i] == Do(s, a) && Allowed(false, s, a);
      hide Run, Inv, MarksIn, MarkedOk, ReaderOk;
      MarkedStep(s, a);
    }
  }

  lemma MarkedStep(s: State, a: Step)
    requires Inv(s) && MarksIn(s) && MarkedOk(s) && Enabled(s, a) && Allowed(false, s, a) && ReaderOk(Do(s, a))
    ensures MarkedOk(Do(s, a))
  {
    if Reads(a) {
      MarkedRead(s, a);
    } else {
      WriterKeeps(s, a);
      assert Do(s, a).on == s.on || !Relying(s.reader);
      hide Inv, Do, Enabled, MarksIn, MarkedOk;
      MarkedKept(s, Do(s, a));
    }
  }

  /** All of what has been copied held the value at the moment the marks were found complete, each once. */
  ghost predicate CopiedSoundly(r: Reader) {
    r.Copying? ==> NoRepeat(r.got) && forall e | e in r.got :: e in r.fixed
  }

  /**
   Over every run in which marks are not given up while a reader relies on them: a read that skips by marks returns
   entities that all held the value at one moment of the read, each once.
   */
  lemma MarkedReadIsSound(states: seq<State>, steps: seq<Step>, i: nat)
    requires Follows(false, states, steps) && i < |states| && states[i].reader.Copying?
    ensures CopiedSoundly(states[i].reader)
    ensures forall b | Since(states, steps, b, i) :: HeldIn(states, b, i, states[i].reader.fixed)
  {
    MarkedRun(states, steps, i);
    forall b | Since(states, steps, b, i) ensures HeldIn(states, b, i, states[i].reader.fixed) {
      RunInv(states, steps, b);
      Moments(states, steps, b, i);
    }
  }

  ghost predicate Reachable(midRead: bool, s: State) {
    exists states, steps :: Follows(midRead, states, steps) && states[|steps|] == s
  }

  lemma StartReached(s: State)
    requires Start(s)
    ensures Reachable(true, s)
  {
    var states, steps: seq<Step> := [s], [];
    assert Follows(true, states, steps) && states[|steps|] == s;
  }

  lemma StepReached(s: State, a: Step, t: State)
    requires Reachable(true, s) && s.backings != [] && Enabled(s, a) && t == Do(s, a)
    ensures Reachable(true, t)
  {
    hide Enabled, Do, Start;
    var states, steps :| Follows(true, states, steps) && states[|steps|] == s;
    var states', steps' := states + [t], steps + [a];
    assert Follows(true, states', steps') && states'[|steps'|] == t;
  }

  lemma PushReached(s: State, d: seq<nat>, more: seq<nat>)
    requires Reachable(true, s) && s.backings == [Backing(d, {}, true, None)] && s.writer == Entering(5)
    requires more == d + [5]
    ensures Reachable(true, s.(backings := [Backing(more, {}, true, None)], writer := Ready))
  {
    hide Reachable;
    var b := Backing(more, {}, true, None);
    assert s.backings[0 := b] == [b];
    StepReached(s, Push, s.(backings := [b], writer := Ready));
  }

  /** An entity has come, a reader asks for marks, and they are given up. */
  ghost function GivenUp(): State {
    State([Backing([5], {}, true, None)], false, {5}, false, Ready, Asked(true))
  }

  lemma GivenUpReached()
    ensures Reachable(true, GivenUp())
  {
    var s := State([Backing([], {}, true, None)], false, {}, true, Ready, Idle);
    StartReached(s);
    hide Reachable, Start;
    var s1 := s.(holders := {5}, writer := Entering(5));
    StepReached(s, WriteCell(5), s1);
    var s2 := s1.(backings := [Backing([5], {}, true, None)], writer := Ready);
    PushReached(s1, [], [5]);
    var s3 := s2.(reader := Asked(true));
    StepReached(s2, LoadOn, s3);
    StepReached(s3, GiveUpMarks, GivenUp());
  }

  /** The entity goes, without a mark, and comes back. */
  lemma ComesBack(s: State)
    requires Reachable(true, s) && s == GivenUp()
    ensures Reachable(true, s.(backings := [Backing([5, 5], {}, true, None)], removed := true))
  {
    hide Reachable;
    var s1 := s.(writer := Leaving(5));
    StepReached(s, MarkStale(5, None, false), s1);
    var s2 := s1.(removed := true, writer := Flagged(5));
    StepReached(s1, RaiseFlag, s2);
    var s3 := s2.(holders := {}, writer := Ready);
    StepReached(s2, ClearCell, s3);
    var s4 := s3.(holders := {5}, writer := Entering(5));
    StepReached(s3, WriteCell(5), s4);
    PushReached(s4, [5], [5, 5]);
  }

  /** A run that breaks the promise: the reader goes by marks that were not set, and returns the entity twice. */
  lemma MarksGivenUpMidRead()
    ensures exists s :: Reachable(true, s) && !CopiedSoundly(s.reader)
  {
    GivenUpReached();
    ComesBack(GivenUp());
    var s := GivenUp().(backings := [Backing([5, 5], {}, true, None)], removed := true);
    hide Reachable, CopiedSoundly;
    var s1 := s.(reader := HasBacking(true, 0));
    StepReached(s, LoadBacking, s1);
    var s2 := s1.(reader := HasLength(true, 0, 2));
    StepReached(s1, LoadLength, s2);
    FindsMarksComplete(s2);
  }

  lemma FindsMarksComplete(s: State)
    requires Reachable(true, s) && s.backings == [Backing([5, 5], {}, true, None)] && s.removed && s.holders == {5}
    requires s.reader == HasLength(true, 0, 2)
    ensures exists t :: Reachable(true, t) && !CopiedSoundly(t.reader)
  {
    hide Reachable, CopiedSoundly;
    var s1 := s.(reader := HasExact(true, 0, 2, true, {5}, {}));
    StepReached(s, LoadExact, s1);
    var s2 := s1.(reader := HasFlag(true, 0, 2, true, {5}, {}, true, {5}));
    StepReached(s1, LoadFlag, s2);
    var s3 := s2.(reader := Copying(0, 2, {5}, {}, 0, []));
    StepReached(s2, LoadBackingAgain, s3);
    CopiesBoth(s3);
  }

  lemma CopiesBoth(s: State)
    requires Reachable(true, s) && s.backings == [Backing([5, 5], {}, true, None)]
    requires s.reader == Copying(0, 2, {5}, {}, 0, [])
    ensures exists t :: Reachable(true, t) && !CopiedSoundly(t.reader)
  {
    hide Reachable;
    var s1 := s.(reader := Copying(0, 2, {5}, {}, 1, [5]));
    assert Do(s, CopyEntry).reader.got == [5];
    StepReached(s, CopyEntry, s1);
    var s2 := s1.(reader := Copying(0, 2, {5}, {}, 2, [5, 5]));
    assert Do(s1, CopyEntry).reader.got == [5, 5];
    StepReached(s1, CopyEntry, s2);
    assert s2.reader.got[0] == s2.reader.got[1];
  }

  /**
   Reads that skip by marks are sound in every run if and only if marks are not given up while a reader relies on them.
   */
  lemma WhenMarkedReadIsSound(midRead: bool)
    ensures (forall s: State | Reachable(midRead, s) :: CopiedSoundly(s.reader)) <==> !midRead
  {
    if midRead {
      MarksGivenUpMidRead();
    } else {
      forall s: State | Reachable(midRead, s) ensures CopiedSoundly(s.reader) {
        var states: seq<State>, steps: seq<Step> :| Follows(midRead, states, steps) && states[|steps|] == s;
        MarkedRun(states, steps, |steps|);
      }
    }
  }

  // ---- Reads that look at the column ----

  ghost predicate HeldOnce(states: seq<State>, b: nat, i: nat, e: nat) {
    exists j :: b < j <= i && j < |states| && e in states[j].holders
  }

  lemma FirstLoad(states: seq<State>, steps: seq<Step>, b: nat)
    requires Since(states, steps, b, b + 1)
    ensures states[b + 1].reader.HasBacking?
  {
  }

  lemma CheckedMore(s: State, a: Step, e: nat)
    requires s.backings != [] && Enabled(s, a) && Do(s, a).reader.Checking? && e in Do(s, a).reader.got
    ensures (s.reader.Checking? && e in s.reader.got) || e in Do(s, a).holders
  {
  }

  /**
   A read that looks at the column, beside running writers: what it has taken each held the value at a moment of the
   read, each once.
   */
  lemma {:induction false} CheckedReadIsSound(states: seq<State>, steps: seq<Step>, b: nat, i: nat)
    requires Since(states, steps, b, i) && states[i].reader.Checking?
    ensures NoRepeat(states[i].reader.got) && forall e | e in states[i].reader.got :: HeldOnce(states, b, i, e)
  {
    hide Run, Enabled, Do;
    RunInv(states, steps, i);
    hide Inv, MarksIn, NoRepeat;
    if i == b + 1 {
      FirstLoad(states, steps, b);
    } else {
      StepOf(states, steps, b, i);
      var s := states[i - 1];
      if s.reader.Checking? {
        CheckedReadIsSound(states, steps, b, i - 1);
      }
      forall e | e in states[i].reader.got ensures HeldOnce(states, b, i, e) {
        CheckedMore(s, steps[i - 1], e);
        if s.reader.Checking? && e in s.reader.got {
          assert HeldOnce(states, b, i - 1, e);
        }
      }
    }
  }

  // ---- Nothing is missed ----

  /** The cell has the value, and no write of it is under way. */
  ghost predicate Settled(s: State, e: nat) {
    e in s.holders && s.writer != Entering(e) && s.writer != Leaving(e) && s.writer != Flagged(e)
  }

  ghost predicate EntryFor(b: Backing, p: nat, e: nat) {
    p < |b.data| && b.data[p] == e && p !in b.stale
  }

  /** Whatever is settled has an entry without a mark. */
  ghost predicate Entered(s: State) {
    s.backings != [] && forall e | Settled(s, e) :: exists p :: EntryFor(Cur(s), p, e)
  }

  lemma EntryStays(s: State, a: Step, e: nat, p: nat)
    requires s.backings != [] && Enabled(s, a) && !a.Swap? && EntryFor(Cur(s), p, e)
    requires Settled(s, e) && Settled(Do(s, a), e)
    ensures Do(s, a).backings != [] && EntryFor(Cur(Do(s, a)), p, e)
  {
  }

  lemma EnteredStep(s: State, a: Step, e: nat)
    requires Entered(s) && MarksIn(s) && Enabled(s, a) && Settled(Do(s, a), e)
    ensures Do(s, a).backings != [] && exists p :: EntryFor(Cur(Do(s, a)), p, e)
  {
    var t := Do(s, a);
    if Settled(s, e) {
      var p :| EntryFor(Cur(s), p, e);
      if a.Swap? {
        assert e in Cur(s).data;
        var q :| 0 <= q < |a.kept| && a.kept[q] == e;
        assert EntryFor(Cur(t), q, e);
      } else {
        hide Do, Enabled, EntryFor, MarksIn;
        EntryStays(s, a, e, p);
      }
    } else {
      assert a.Push? || a.PushGrowing?;
      assert EntryFor(Cur(t), |Cur(s).data|, e);
    }
  }

  lemma {:induction false} RunEntered(states: seq<State>, steps: seq<Step>, i: nat)
    requires Run(states, steps) && i < |states|
    ensures Entered(states[i])
  {
    if i > 0 {
      RunEntered(states, steps, i - 1);
      RunInv(states, steps, i - 1);
      var s, a := states[i - 1], steps[i - 1];
      assert states[i] == Do(s, a);
      forall e | Settled(states[i], e) ensures exists p :: EntryFor(Cur(states[i]), p, e) {
        EnteredStep(s, a, e);
      }
      assert states[i].backings != [] by {
        RunInv(states, steps, i);
      }
    }
  }

  /** A read of backing `at` has the entry at place `p` before it, or has taken it. */
  ghost predicate Finds(r: Reader, p: nat, e: nat) {
    match r
    case Idle => false
    case Asked(_) => true
    case HasBacking(_, _) => true
    case HasLength(_, _, n) => p < n
    case HasExact(_, _, n, _, _, _) => p < n
    case HasFlag(_, _, n, _, _, _, _, _) => p < n
    case Clean(_, n, _) => p < n
    case Copying(_, n, _, _, i, got) => p < n && (p < i ==> e in got)
    case Checking(_, n, i, got) => p < n && (p < i ==> e in got)
  }

  ghost predicate Found(s: State, at: nat, p: nat, e: nat) {
    at < |s.backings| && EntryFor(s.backings[at], p, e) && On(s.reader, at) && Finds(s.reader, p, e)
  }

  lemma FindsStep(s: State, a: Step, at: nat, p: nat, e: nat)
    requires s.backings != [] && Enabled(s, a) && !a.LoadBacking? && Settled(s, e) && Settled(Do(s, a), e)
    requires Found(s, at, p, e)
    ensures Found(Do(s, a), at, p, e)
  {
  }

  lemma StepOf(states: seq<State>, steps: seq<Step>, b: nat, i: nat)
    requires Since(states, steps, b, i) && b + 1 < i
    ensures i <= |steps| && states[i - 1].backings != [] && Enabled(states[i - 1], steps[i - 1])
    ensures states[i] == Do(states[i - 1], steps[i - 1])
    ensures !steps[i - 1].LoadBacking? && Since(states, steps, b, i - 1)
  {
  }

  lemma FindsFirst(states: seq<State>, steps: seq<Step>, b: nat, e: nat, p: nat)
    requires Since(states, steps, b, b + 1) && states[b].backings != [] && EntryFor(Cur(states[b]), p, e)
    ensures Found(states[b + 1], |states[b].backings| - 1, p, e)
  {
    assert states[b + 1] == Do(states[b], steps[b]);
  }

  lemma {:induction false} FindsSince(states: seq<State>, steps: seq<Step>, b: nat, i: nat, e: nat, p: nat)
    requires Since(states, steps, b, i) && states[b].backings != [] && EntryFor(Cur(states[b]), p, e)
    requires forall j: nat | b <= j <= i :: Settled(states[j], e)
    ensures Found(states[i], |states[b].backings| - 1, p, e)
  {
    hide Run, Enabled, Do, EntryFor, Settled, Found;
    if i == b + 1 {
      FindsFirst(states, steps, b, e, p);
    } else {
      StepOf(states, steps, b, i);
      FindsSince(states, steps, b, i - 1, e, p);
      assert Settled(states[i - 1], e) && Settled(states[i], e);
      FindsStep(states[i - 1], steps[i - 1], |states[b].backings| - 1, p, e);
    }
  }

  /**
   Over every run: an entity that has the value and whose cell nobody is writing, from the start of a read to its end,
   is among what the read returns, whichever way it goes.
   */
  lemma NothingMissed(states: seq<State>, steps: seq<Step>, b: nat, i: nat, e: nat)
    requires Since(states, steps, b, i) && forall j: nat | b <= j <= i :: Settled(states[j], e)
    ensures var s, r := states[i], states[i].reader;
      && (r.Clean? ==> r.at < |s.backings| && r.n <= |s.backings[r.at].data| && e in s.backings[r.at].data[..r.n])
      && ((r.Copying? || r.Checking?) && r.i == r.n ==> e in r.got)
  {
    RunEntered(states, steps, b);
    RunInv(states, steps, i);
    assert Settled(states[b], e);
    var p: nat :| EntryFor(Cur(states[b]), p, e);
    FindsSince(states, steps, b, i, e, p);
    var s, r := states[i], states[i].reader;
    if r.Clean? {
      assert s.backings[r.at].data[..r.n][p] == e;
    }
  }

  // ---- Every read and every write ends ----

  /** The steps of the writer that do not begin an operation. */
  ghost predicate Writes(a: Step) {
    a.Push? || a.PushGrowing? || a.RaiseFlag? || a.ClearCell? || a.LowerFlag?
  }

  ghost function WriterLeft(w: Writer): nat {
    match w
    case Ready => 0
    case Entering(_) => 1
    case Leaving(_) => 2
    case Flagged(_) => 1
    case Swapped => 1
  }

  /** The loads a reader that knows its length still makes at most. */
  ghost function ReaderLeft(r: Reader): nat {
    match r
    case HasLength(_, _, n) => n + 3
    case HasExact(_, _, n, _, _, _) => n + 2
    case HasFlag(_, _, n, _, _, _, _, _) => n + 1
    case Copying(_, n, _, _, i, _) => if i < n then n - i else 0
    case Checking(_, n, i, _) => if i < n then n - i else 0
    case _ => 0
  }

  ghost predicate KnowsLength(r: Reader) {
    !r.Idle? && !r.Asked? && !r.HasBacking?
  }

  lemma WriterProgress(s: State, a: Step)
    requires s.backings != [] && Enabled(s, a)
    ensures Writes(a) ==> WriterLeft(Do(s, a).writer) < WriterLeft(s.writer)
    ensures Reads(a) || a.GiveUpMarks? ==> Do(s, a).writer == s.writer
  {
    hide Fresh;
  }

  lemma ReaderProgress(s: State, a: Step)
    requires s.backings != [] && Enabled(s, a) && KnowsLength(s.reader) && !a.LoadOn?
    ensures KnowsLength(Do(s, a).reader)
    ensures if Reads(a) then ReaderLeft(Do(s, a).reader) < ReaderLeft(s.reader) else Do(s, a).reader == s.reader
  {
    hide Fresh;
  }

  /** How many of the steps from `i` to `j` are the writer's, how many the reader's. */
  ghost function Count(steps: seq<Step>, i: nat, j: nat, loads: bool): nat
    requires i <= j <= |steps|
  {
    if i == j then 0
    else Count(steps, i, j - 1, loads) + if (if loads then Reads(steps[j - 1]) else Writes(steps[j - 1])) then 1 else 0
  }

  lemma StepAt(states: seq<State>, steps: seq<Step>, i: nat)
    requires Run(states, steps) && i + 1 < |states|
    ensures |states| == |steps| + 1 && states[i].backings != [] && Enabled(states[i], steps[i])
    ensures states[i + 1] == Do(states[i], steps[i])
  {
  }

  /** Over every run: an operation of the writer ends after two steps at most, whatever readers do. */
  lemma {:induction false} WriteEnds(states: seq<State>, steps: seq<Step>, i: nat, j: nat)
    requires Run(states, steps) && i <= j < |states| == |steps| + 1
    requires forall k | i <= k < j :: Writes(steps[k]) || Reads(steps[k]) || steps[k].GiveUpMarks?
    ensures Count(steps, i, j, false) + WriterLeft(states[j].writer) <= WriterLeft(states[i].writer) <= 2
    decreases j
  {
    hide Run, Do, Enabled, Reads, Writes;
    if i < j {
      StepAt(states, steps, j - 1);
      WriteEnds(states, steps, i, j - 1);
      WriterProgress(states[j - 1], steps[j - 1]);
    }
  }

  /** Over every run: a read ends after three loads and one for each entry, whatever the writer does. */
  lemma {:induction false} ReadEnds(states: seq<State>, steps: seq<Step>, i: nat, j: nat)
    requires Run(states, steps) && i <= j < |states| == |steps| + 1 && KnowsLength(states[i].reader)
    requires forall k | i <= k < j :: !steps[k].LoadOn?
    ensures KnowsLength(states[j].reader)
    ensures Count(steps, i, j, true) + ReaderLeft(states[j].reader) <= ReaderLeft(states[i].reader)
    decreases j
  {
    hide Run, Do, Enabled, Reads, Writes, KnowsLength;
    if i < j {
      StepAt(states, steps, j - 1);
      ReadEnds(states, steps, i, j - 1);
      ReaderProgress(states[j - 1], steps[j - 1]);
    }
  }

  /** Over every run: neither the writer nor a reader ever waits for the other. */
  lemma NeverWaits(states: seq<State>, steps: seq<Step>, i: nat)
    requires Run(states, steps) && i < |states|
    ensures states[i].backings != []
    ensures !states[i].writer.Ready? ==> exists a :: Writes(a) && Enabled(states[i], a)
    ensures states[i].reader.Asked? || states[i].reader.HasBacking? || ReaderLeft(states[i].reader) > 0 ==>
      exists a :: Reads(a) && !a.LoadOn? && Enabled(states[i], a)
  {
    RunInv(states, steps, i);
    var s := states[i];
    hide Run, CurOk, BackingsOk, WriterOk;
    if !s.writer.Ready? {
      var a := match s.writer
        case Entering(_) => Push
        case Leaving(_) => RaiseFlag
        case Flagged(_) => ClearCell
        case _ => LowerFlag;
      assert Writes(a) && Enabled(s, a);
    }
    if s.reader.Asked? || s.reader.HasBacking? || ReaderLeft(s.reader) > 0 {
      var a := match s.reader
        case Asked(_) => LoadBacking
        case HasBacking(_, _) => LoadLength
        case HasLength(_, _, _) => LoadExact
        case HasExact(_, _, _, _, _, _) => LoadFlag
        case HasFlag(_, _, _, _, _, _, _, _) => LoadBackingAgain
        case Copying(_, _, _, _, _, _) => CopyEntry
        case _ => CheckEntry;
      assert Reads(a) && !a.LoadOn? && Enabled(s, a);
    }
  }

  const SIX_LOADS := [LoadOn, LoadBacking, LoadLength, LoadExact, LoadFlag, LoadBackingAgain]

  /** What a reader has after `k` of the six, if nobody writes meanwhile. */
  ghost function Stage(s: State, k: nat): Reader
    requires s.backings != [] && 1 <= k <= 6
  {
    var at: nat, b := |s.backings| - 1, Cur(s);
    if k == 1 then Asked(s.on)
    else if k == 2 then HasBacking(s.on, at)
    else if k == 3 then HasLength(s.on, at, |b.data|)
    else if k == 4 then HasExact(s.on, at, |b.data|, b.exact, s.holders, b.stale)
    else if k == 5 then HasFlag(s.on, at, |b.data|, b.exact, s.holders, b.stale, s.removed, s.holders)
    else if !s.removed then Clean(at, |b.data|, s.holders)
    else if s.on && b.exact then Copying(at, |b.data|, s.holders, b.stale, 0, [])
    else Checking(at, |b.data|, 0, [])
  }

  lemma LoadStep(s: State, t: State, k: nat)
    requires s.backings != [] && Cur(s).last.None? && k < 6
    requires (if k == 0 then t == s else t == s.(reader := Stage(s, k))) && Enabled(t, SIX_LOADS[k])
    ensures Do(t, SIX_LOADS[k]) == s.(reader := Stage(s, k + 1))
  {
  }

  ghost predicate Six(steps: seq<Step>, b: nat) {
    b + 6 <= |steps| && steps[b..b + 6] == SIX_LOADS
  }

  lemma SixAt(steps: seq<Step>, b: nat, k: nat)
    requires Six(steps, b) && k < 6
    ensures b + 6 <= |steps| && steps[b + k] == SIX_LOADS[k]
  {
    assert steps[b..b + 6][k] == steps[b + k];
  }

  lemma {:induction false} QuietLoads(states: seq<State>, steps: seq<Step>, b: nat, k: nat)
    requires Run(states, steps) && b + 6 < |states| && Six(steps, b) && 1 <= k <= 6
    requires states[b].backings != [] && Cur(states[b]).last.None?
    ensures states[b + k] == states[b].(reader := Stage(states[b], k))
  {
    hide Run, Do, Enabled, Stage, Cur, Six;
    StepAt(states, steps, b + k - 1);
    SixAt(steps, b, k - 1);
    if k > 1 {
      QuietLoads(states, steps, b, k - 1);
    }
    LoadStep(states[b], states[b + k - 1], k - 1);
  }

  /**
   Over every run: a reader that nobody disturbs takes the cheapest way that does. With the flag down it copies all;
   with
   the flag up it goes by the marks if they are in use and complete, and looks at the column only if they are not.
   */
  lemma QuietReadTakes(states: seq<State>, steps: seq<Step>, b: nat)
    requires Run(states, steps) && Six(steps, b)
    ensures states[b].backings != [] && states[b + 6].reader == Stage(states[b], 6)
    ensures states[b + 6].reader.Clean? <==> !states[b].removed
    ensures states[b + 6].reader.Copying? <==> states[b].removed && states[b].on && Cur(states[b]).exact
  {
    RunInv(states, steps, b);
    hide BackingsOk, WriterOk, ReaderOk, Do, Enabled;
    QuietLoads(states, steps, b, 6);
  }

  ghost predicate JustSwapped(s: State, kept: seq<nat>) {
    s.backings != [] && s.writer.Swapped? && Cur(s).data == kept && Cur(s).stale == {}
  }

  lemma SwapStep(s: State, a: Step, kept: seq<nat>)
    requires s.backings != [] && Enabled(s, a)
    ensures a == Swap(kept) ==> JustSwapped(Do(s, a), kept)
    ensures JustSwapped(s, kept) && !a.LowerFlag? ==> JustSwapped(Do(s, a), kept)
    ensures JustSwapped(s, kept) && a.LowerFlag? ==>
      var t := Do(s, a); t.backings != [] && t.writer.Ready? && !t.removed && Cur(t).data == kept && Cur(t).stale == {}
  {
    hide Fresh;
  }

  /**
   Over every run: compaction that has ended has left what held the value, once each, with no mark and the flag down, so
   that the next read needs no look at the column.
   */
  lemma {:induction false} CompactionEnds(states: seq<State>, steps: seq<Step>, j: nat, i: nat, kept: seq<nat>)
    requires Run(states, steps) && j < i < |steps| && steps[j] == Swap(kept) && steps[i].LowerFlag?
    requires forall k | j < k < i :: !steps[k].LowerFlag?
    ensures var t := states[i + 1];
      t.backings != [] && !t.removed && t.writer.Ready? && Cur(t).data == kept && Cur(t).stale == {}
  {
    SwappedSince(states, steps, j, i, kept);
    StepAt(states, steps, i);
    hide Run, Do, Enabled, JustSwapped, Cur;
    SwapStep(states[i], steps[i], kept);
  }

  lemma {:induction false} SwappedSince(states: seq<State>, steps: seq<Step>, j: nat, i: nat, kept: seq<nat>)
    requires Run(states, steps) && j < i < |states| == |steps| + 1 && steps[j] == Swap(kept)
    requires forall k | j < k < i :: !steps[k].LowerFlag?
    ensures JustSwapped(states[i], kept)
    decreases i
  {
    hide Run, Do, Enabled, JustSwapped;
    StepAt(states, steps, i - 1);
    if i > j + 1 {
      SwappedSince(states, steps, j, i - 1, kept);
    }
    SwapStep(states[i - 1], steps[i - 1], kept);
  }
}
