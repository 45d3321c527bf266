/**
 Reading a leaf slot while it is freed and reused (crates/enchudb-engine/src/leaf_store.rs, `insert`, `free`,
 `try_read`), one atomic load or store at a time.

 The words are those from one offset on, an offset that is the start of whatever slot covers it. While it is
 free its header may be written over as the header of a hole, and any other word with anything; while it is a
 slot, the words after it may be.
 */
module LeafSeqlock {
  import opened LeafStores

  datatype Value = Value(len: nat, payload: seq<nat>)

  /** What the offset is used for. `Busy` is an insert that has made `at` of its stores. */
  datatype Phase =
    | Free
    | Busy(gen: nat, size: nat, value: Value, at: nat)
    | Live(gen: nat, size: nat, value: Value)

  datatype Reader =
    | Idle
    | SawSize
    | SawGen(g: nat)
    | SawSlot(g: nat, ss: nat)
    | Copying(g: nat, len: nat, got: seq<nat>)
    | ReadOk(g: nat, len: nat, got: seq<nat>)
    | OldForm

  /** `written` are the values of all inserts here that ended, by generation. */
  datatype State = State(
    ss: nat, len: nat, gen: nat, body: seq<nat>,
    phase: Phase, genSeq: nat, reader: Reader, written: map<nat, Value>)

  datatype Step =
    | InsertElsewhere
    | Alloc(size: nat, value: Value)
    | Store
    | FreeSlot
    | HoleSize(x: nat)
    | HoleGen(x: nat)
    | OtherLen(x: nat)
    | OtherWord(i: nat, x: nat)
    | LoadSize
    | LoadGen
    | LoadSlot
    | LoadLen
    | LoadWord
    | LoadGenAgain

  ghost predicate Enabled(s: State, a: Step) {
    match a
    case InsertElsewhere => true
    case Alloc(n, v) => s.phase.Free? && HDR + |v.payload| <= n <= HDR + |s.body| && |v.payload| == (v.len + 3) / 4
    case Store => s.phase.Busy? && s.phase.at <= 3 + |s.phase.value.payload| && |s.phase.value.payload| <= |s.body|
    case FreeSlot => s.phase.Live?
    case HoleSize(x) => s.phase.Free? && Odd(x)
    case HoleGen(x) => s.phase.Free? && Odd(x)
    case OtherLen(x) => s.phase.Free?
    case OtherWord(i, x) => i < |s.body| && (s.phase.Free? || s.phase.size <= HDR + i)
    case LoadSize => !s.reader.OldForm? && s.written != map[]
    case LoadGen => s.reader.SawSize?
    case LoadSlot => s.reader.SawGen?
    case LoadLen => s.reader.SawSlot?
    case LoadWord => s.reader.Copying? && |s.reader.got| < (s.reader.len + 3) / 4 && |s.reader.got| < |s.body|
    case LoadGenAgain => s.reader.Copying? && |s.reader.got| == (s.reader.len + 3) / 4
  }

  /** The stores of an insert, in order: size, odd generation, length, payload, even generation. */
  ghost function StoreNext(s: State): State
    requires Enabled(s, Store)
  {
    var p := s.phase;
    var t := s.(phase := p.(at := p.at + 1));
    if p.at == 0 then t.(ss := 4 * p.size + 1)
    else if p.at == 1 then t.(gen := p.gen + 1)
    else if p.at == 2 then t.(len := p.value.len)
    else if p.at < 3 + |p.value.payload| then t.(body := s.body[p.at - 3 := p.value.payload[p.at - 3]])
    else s.(gen := p.gen, phase := Live(p.gen, p.size, p.value), written := s.written[p.gen := p.value])
  }

  ghost function Do(s: State, a: Step): State
    requires Enabled(s, a)
  {
    match a
    case InsertElsewhere => s.(genSeq := s.genSeq + 2)
    case Alloc(n, v) => s.(genSeq := s.genSeq + 2, phase := Busy(s.genSeq + 2, n, v, 0))
    case Store => StoreNext(s)
    case FreeSlot => s.(gen := HOLE_GEN, phase := Free)
    case HoleSize(x) => s.(ss := x)
    case HoleGen(x) => s.(gen := x)
    case OtherLen(x) => s.(len := x)
    case OtherWord(i, x) => s.(body := s.body[i := x])
    case LoadSize => s.(reader := if HasGen(s.ss) then SawSize else OldForm)
    case LoadGen => s.(reader := if Odd(s.gen) then Idle else SawGen(s.gen))
    case LoadSlot => s.(reader := if HasGen(s.ss) then SawSlot(s.reader.g, s.ss) else Idle)
    case LoadLen =>
      s.(reader := if s.len + 12 > s.reader.ss - s.reader.ss % 2 || s.len > 4 * |s.body| then Idle
        else Copying(s.reader.g, s.len, []))
    case LoadWord => s.(reader := Copying(s.reader.g, s.reader.len, s.reader.got + [s.body[|s.reader.got|]]))
    case LoadGenAgain =>
      s.(reader := if s.gen == s.reader.g then ReadOk(s.reader.g, s.reader.len, s.reader.got) else Idle)
  }

  /** The offset has not been a slot yet; what its words hold is anything. */
  ghost predicate Start(s: State) {
    s.phase.Free? && s.genSeq % 2 == 0 && s.reader.Idle? && s.written == map[]
  }

  ghost predicate Run(states: seq<State>, steps: seq<Step>) {
    && |states| == |steps| + 1 && Start(states[0])
    && forall i | 0 <= i < |steps| :: Enabled(states[i], steps[i]) && states[i + 1] == Do(states[i], steps[i])
  }

  // ---- Invariant ----

  ghost predicate Fits(size: nat, value: Value) {
    HDR + |value.payload| <= size && |value.payload| == (value.len + 3) / 4
  }

  /** A slot holds its value; a header that was a slot once and is none now is marked. */
  ghost predicate PhaseOk(s: State) {
    match s.phase
    case Free => s.written != map[] ==> Odd(s.ss) && Odd(s.gen)
    case Busy(g, n, v, at) =>
      && Fits(n, v) && !Odd(g) && g <= s.genSeq && (forall h | h in s.written :: h < g)
      && (at == 0 ==> s.written != map[] ==> Odd(s.ss)) && (at > 0 ==> s.ss == 4 * n + 1)
      && (at < 2 ==> s.written != map[] ==> Odd(s.gen)) && (at >= 2 ==> s.gen == g + 1)
      && (at >= 3 ==> s.len == v.len)
      && |v.payload| <= |s.body| && at <= 3 + |v.payload| && forall i | 0 <= i < at - 3 :: s.body[i] == v.payload[i]
    case Live(g, n, v) =>
      && Fits(n, v) && !Odd(g) && g in s.written && s.written[g] == v
      && s.gen == g && s.ss == 4 * n + 1 && s.len == v.len
      && |v.payload| <= |s.body| && s.body[..|v.payload|] == v.payload
  }

  ghost predicate GensOk(s: State) {
    !Odd(s.genSeq) && forall g | g in s.written :: !Odd(g) && g <= s.genSeq
  }

  /** The slot a reader started on is still there. */
  ghost predicate Still(s: State, g: nat) {
    s.phase.Live? && s.phase.gen == g
  }

  ghost predicate ReaderOk(s: State) {
    match s.reader
    case Idle => true
    case SawSize => s.written != map[]
    case SawGen(g) => g in s.written && (s.gen == g ==> Still(s, g))
    case SawSlot(g, ss) => g in s.written && (s.gen == g ==> Still(s, g))
    case Copying(g, len, got) =>
      && g in s.written && (s.gen == g ==> Still(s, g))
      && (Still(s, g) ==>
        len == s.written[g].len && |got| <= |s.written[g].payload| && got == s.written[g].payload[..|got|])
    case ReadOk(g, len, got) => g in s.written && s.written[g] == Value(len, got)
    case OldForm => false
  }

  ghost predicate Inv(s: State) {
    PhaseOk(s) && GensOk(s) && ReaderOk(s)
  }

  lemma OddNext(g: nat)
    ensures Odd(g + 1) <==> !Odd(g)
    ensures Odd(g + 2) <==> Odd(g)
  {
  }

  lemma StartInv(s: State)
    requires Start(s)
    ensures Inv(s)
  {
  }

  ghost predicate Writes(a: Step) {
    a.InsertElsewhere? || a.Alloc? || a.Store? || a.FreeSlot? || a.HoleSize? || a.HoleGen? || a.OtherLen?
      || a.OtherWord?
  }

  lemma StoreHeader(s: State)
    requires PhaseOk(s) && GensOk(s) && Enabled(s, Store)
    ensures PhaseOk(StoreNext(s)) && GensOk(StoreNext(s))
  {
    OddNext(s.phase.gen);
    HoleWordsAreOdd(s.phase.size);
    hide Odd;
  }

  lemma WriterHeader(s: State, a: Step)
    requires PhaseOk(s) && GensOk(s) && Enabled(s, a) && Writes(a)
    ensures PhaseOk(Do(s, a)) && GensOk(Do(s, a))
  {
    hide PhaseOk, GensOk, StoreNext, Odd;
    match a {
      case Store => StoreHeader(s);
      case OtherWord(i, x) => OtherWordHeader(s, i, x);
      case InsertElsewhere => CounterHeader(s);
      case Alloc(n, v) => AllocHeader(s, n, v);
      case _ => HoleHeader(s, a);
    }
  }

  lemma CounterHeader(s: State)
    requires PhaseOk(s) && GensOk(s)
    ensures PhaseOk(s.(genSeq := s.genSeq + 2)) && GensOk(s.(genSeq := s.genSeq + 2))
  {
    OddNext(s.genSeq);
    hide Odd, Fits;
  }

  lemma AllocHeader(s: State, n: nat, v: Value)
    requires PhaseOk(s) && GensOk(s) && Enabled(s, Alloc(n, v))
    ensures PhaseOk(Do(s, Alloc(n, v))) && GensOk(Do(s, Alloc(n, v)))
  {
    OddNext(s.genSeq);
    hide Odd;
  }

  lemma HoleHeader(s: State, a: Step)
    requires PhaseOk(s) && GensOk(s) && Enabled(s, a) && (a.FreeSlot? || a.HoleSize? || a.HoleGen? || a.OtherLen?)
    ensures PhaseOk(Do(s, a)) && GensOk(Do(s, a))
  {
    HoleWordsAreOdd(s.genSeq);
    if s.phase.Live? {
      HoleWordsAreOdd(s.phase.size);
    }
    hide Odd, Fits, StoreNext;
  }

  lemma OtherWordHeader(s: State, i: nat, x: nat)
    requires PhaseOk(s) && GensOk(s) && Enabled(s, OtherWord(i, x))
    ensures PhaseOk(s.(body := s.body[i := x])) && GensOk(s.(body := s.body[i := x]))
  {
    hide Odd;
    if s.phase.Live? {
      assert s.body[i := x][..|s.phase.value.payload|] == s.body[..|s.phase.value.payload|];
    }
  }

  /** A generation that is over does not come back. */
  lemma GenMoves(s: State, a: Step, g: nat)
    requires PhaseOk(s) && GensOk(s) && Enabled(s, a) && Writes(a) && g in s.written && (s.gen == g ==> Still(s, g))
    ensures Do(s, a).gen == g ==> Still(Do(s, a), g)
    ensures Still(Do(s, a), g) ==> Still(s, g)
    ensures g in Do(s, a).written && Do(s, a).written[g] == s.written[g]
  {
    if s.phase.Busy? {
      OddNext(s.phase.gen);
    }
    HoleWordsAreOdd(0);
    hide Odd;
  }

  lemma WriterInv(s: State, a: Step)
    requires Inv(s) && Enabled(s, a) && Writes(a)
    ensures Inv(Do(s, a))
  {
    hide Odd, PhaseOk, GensOk, Enabled, Do, Still;
    WriterHeader(s, a);
    ReaderStays(s, a);
  }

  lemma ReaderStays(s: State, a: Step)
    requires Inv(s) && Enabled(s, a) && Writes(a)
    ensures ReaderOk(Do(s, a))
  {
    var r, t := s.reader, Do(s, a);
    assert t.reader == r && forall g | g in s.written :: g in t.written by {
      hide Inv;
    }
    if r.SawGen? || r.SawSlot? || r.Copying? {
      GenMoves(s, a, r.g);
    }
    if r.ReadOk? {
      WrittenStays(s, a, r.g);
    }
    hide PhaseOk, GensOk, Enabled, Do, Still;
  }

  lemma WrittenStays(s: State, a: Step, g: nat)
    requires PhaseOk(s) && Enabled(s, a) && g in s.written
    ensures g in Do(s, a).written && Do(s, a).written[g] == s.written[g]
  {
    hide Odd;
  }

  lemma ReaderInv(s: State, a: Step)
    requires Inv(s) && Enabled(s, a) && !Writes(a)
    ensures Inv(Do(s, a))
  {
    if s.phase.Busy? {
      OddNext(s.phase.gen);
      HoleWordsAreOdd(s.phase.size);
    }
    if s.phase.Live? {
      HoleWordsAreOdd(s.phase.size);
    }
    hide Odd;
    var t := Do(s, a);
    assert PhaseOk(t) && GensOk(t);
    assert ReaderOk(t);
  }

  lemma {:induction false} RunInv(states: seq<State>, steps: seq<Step>, i: nat)
    requires Run(states, steps) && i < |states|
    ensures Inv(states[i])
  {
    if i == 0 {
      StartInv(states[0]);
    } else {
      RunInv(states, steps, i - 1);
      var a := steps[i - 1];
      if Writes(a) {
        WriterInv(states[i - 1], a);
      } else {
        ReaderInv(states[i - 1], a);
      }
    }
  }

  /** Over every run: what a reader returns is the whole value of one single insert, the one its generation names. */
  lemma NoTornValue(states: seq<State>, steps: seq<Step>, i: nat)
    requires Run(states, steps) && i < |states|
    ensures !states[i].reader.OldForm?
    ensures states[i].reader.ReadOk? ==>
      var r := states[i].reader;
      r.g in states[i].written && states[i].written[r.g] == Value(r.len, r.got)
  {
    RunInv(states, steps, i);
  }

  /** A read that ends well returns what the slot holds at that moment. */
  lemma ReadsCurrent(states: seq<State>, steps: seq<Step>, i: nat)
    requires Run(states, steps) && i < |steps| && steps[i].LoadGenAgain? && states[i + 1].reader.ReadOk?
    ensures var p, r := states[i + 1].phase, states[i + 1].reader;
      p.Live? && p.gen == r.g && p.value == Value(r.len, r.got)
  {
    RunInv(states, steps, i);
    RunInv(states, steps, i + 1);
    assert states[i + 1] == Do(states[i], steps[i]);
    hide Odd, Fits;
  }

  // ---- A reader that nobody disturbs ----

  /** The loads among the steps from `j` to `i`. */
  ghost function Loads(steps: seq<Step>, j: nat, i: nat): nat
    requires j <= i <= |steps|
  {
    if i == j then 0 else Loads(steps, j, i - 1) + if Writes(steps[i - 1]) then 0 else 1
  }

  /** Where a reader of the present slot is after `k` loads. */
  ghost predicate OnCourse(s: State, k: nat) {
    && s.phase.Live?
    && var p := s.phase;
    && 1 <= k <= 5 + |p.value.payload|
    && s.reader ==
         if k == 1 then SawSize
         else if k == 2 then SawGen(p.gen)
         else if k == 3 then SawSlot(p.gen, 4 * p.size + 1)
         else if k < 5 + |p.value.payload| then Copying(p.gen, p.value.len, p.value.payload[..k - 4])
         else ReadOk(p.gen, p.value.len, p.value.payload)
  }

  /** The load that comes next. */
  ghost function NextLoad(s: State): Step {
    match s.reader
    case SawSize => LoadGen
    case SawGen(_) => LoadSlot
    case SawSlot(_, _) => LoadLen
    case Copying(_, len, got) => if |got| < (len + 3) / 4 then LoadWord else LoadGenAgain
    case _ => LoadSize
  }

  lemma CourseLoad(s: State, a: Step, k: nat)
    requires Inv(s) && OnCourse(s, k) && Enabled(s, a) && !Writes(a) && !a.LoadSize?
    ensures OnCourse(Do(s, a), k + 1)
  {
    var p := s.phase;
    HoleWordsAreOdd(p.size);
    hide Odd;
    assert (4 * p.size + 1) % 2 == 1;
    if a.LoadWord? {
      assert s.body[k - 4] == s.body[..|p.value.payload|][k - 4];
    }
  }

  lemma CourseWrite(s: State, a: Step, k: nat)
    requires OnCourse(s, k) && Enabled(s, a) && Writes(a) && Do(s, a).phase.Live?
    ensures OnCourse(Do(s, a), k) && Do(s, a).phase == s.phase
  {
  }

  lemma CourseStep(s: State, a: Step, k: nat)
    requires Inv(s) && OnCourse(s, k) && Enabled(s, a) && !a.LoadSize? && Do(s, a).phase.Live?
    ensures OnCourse(Do(s, a), k + if Writes(a) then 0 else 1) && Do(s, a).phase == s.phase
  {
    hide Inv, OnCourse;
    if Writes(a) {
      CourseWrite(s, a, k);
    } else {
      CourseLoad(s, a, k);
    }
  }

  lemma CourseOpen(s: State, k: nat)
    requires Inv(s) && OnCourse(s, k) && k < 5 + |s.phase.value.payload|
    ensures Enabled(s, NextLoad(s)) && !Writes(NextLoad(s)) && !NextLoad(s).LoadSize?
  {
  }

  lemma LoadSizeLoads(s: State, a: Step)
    requires a.LoadSize? && Enabled(s, a)
    ensures !Writes(a) && Do(s, a).phase == s.phase
  {
  }

  lemma CourseStarts(s: State)
    requires Inv(s) && s.phase.Live? && Enabled(s, LoadSize)
    ensures OnCourse(Do(s, LoadSize), 1)
  {
    HoleWordsAreOdd(s.phase.size);
    hide Odd;
  }

  /**
   Over every run: while the slot it began on stays, and it does not begin again, a reader is never sent away. It
   always has its next load to make, and after five loads and one for each word it returns the value.
   */
  lemma {:induction false} Undisturbed(states: seq<State>, steps: seq<Step>, j: nat, i: nat)
    requires Run(states, steps) && j < i < |states| && steps[j].LoadSize?
    requires forall m | j <= m <= i :: states[m].phase.Live?
    requires forall m | j < m < i :: !steps[m].LoadSize?
    ensures states[i].phase == states[j].phase && OnCourse(states[i], Loads(steps, j, i))
    decreases i
  {
    RunInv(states, steps, i - 1);
    var s, a := states[i - 1], steps[i - 1];
    assert states[i] == Do(s, a) && Enabled(s, a);
    hide Inv, OnCourse, Enabled, Do, Start, Writes, NextLoad;
    if i == j + 1 {
      CourseStarts(s);
      LoadSizeLoads(s, a);
      assert Loads(steps, j, j) == 0;
    } else {
      Undisturbed(states, steps, j, i - 1);
      CourseStep(s, a, Loads(steps, j, i - 1));
    }
  }

  lemma NeverStuck(states: seq<State>, steps: seq<Step>, j: nat, i: nat)
    requires Run(states, steps) && j < i < |states| && steps[j].LoadSize?
    requires forall m | j <= m <= i :: states[m].phase.Live?
    requires forall m | j < m < i :: !steps[m].LoadSize?
    ensures Loads(steps, j, i) <= 5 + |states[i].phase.value.payload|
    ensures Loads(steps, j, i) < 5 + |states[i].phase.value.payload| ==> Enabled(states[i], NextLoad(states[i]))
    ensures Loads(steps, j, i) == 5 + |states[i].phase.value.payload| ==>
      var p := states[j].phase; states[i].reader == ReadOk(p.gen, p.value.len, p.value.payload)
  {
    Undisturbed(states, steps, j, i);
    RunInv(states, steps, i);
    if Loads(steps, j, i) < 5 + |states[i].phase.value.payload| {
      CourseOpen(states[i], Loads(steps, j, i));
    }
    hide Inv, Enabled, NextLoad;
  }

  // ---- The stores are those of the store ----

  /** The words from the offset on. */
  ghost function Words(s: State): seq<nat> {
    [s.ss, s.len, s.gen] + s.body
  }

  /** Each store of an insert here is the store that `LeafStore.WriteSlot` makes at that point. */
  lemma StoresAgree(s: State, o: nat)
    requires Enabled(s, Store)
    ensures var p := s.phase; var stores := SlotStores(o, p.size, p.value.len, p.value.payload, p.gen);
      && |stores| == 4 + |p.value.payload|
      && o <= stores[p.at].0 < o + |Words(s)|
      && Words(StoreNext(s)) == Words(s)[stores[p.at].0 - o := stores[p.at].1]
  {
    var p := s.phase;
    if p.value.payload != [] {
      PayloadStoreAt(o, p.value.payload, if 3 <= p.at < 3 + |p.value.payload| then p.at - 3 else 0);
    }
  }

  // ---- A reader stays inside ----

  /** The length was read against this size word, and fits both the slot and the region. */
  ghost predicate Checked(s: State, a: Step, t: State, len: nat) {
    && a.LoadLen? && s.reader.SawSlot? && t.reader == Copying(s.reader.g, len, [])
    && 12 + len <= s.reader.ss - s.reader.ss % 2 && len <= 4 * |t.body|
  }

  lemma CopyStep(s: State, a: Step, g: nat, len: nat)
    requires Enabled(s, a) && Do(s, a).reader.Copying? && Do(s, a).reader.g == g && Do(s, a).reader.len == len
    ensures |Do(s, a).body| == |s.body|
    ensures Checked(s, a, Do(s, a), len) || (s.reader.Copying? && s.reader.g == g && s.reader.len == len)
  {
    hide Odd;
  }

  /**
   Over every run, torn reads included: a reader copies no more than the slot whose size it saw can hold, and nothing
   past the end of the region, so that its next load is always there to be made.
   */
  lemma {:induction false} ReadsInside(states: seq<State>, steps: seq<Step>, i: nat)
    requires Run(states, steps) && i < |states| && states[i].reader.Copying?
    ensures exists j :: 0 <= j < i && Checked(states[j], steps[j], states[j + 1], states[i].reader.len)
    ensures states[i].reader.len <= 4 * |states[i].body|
    ensures |states[i].reader.got| < (states[i].reader.len + 3) / 4 ==> Enabled(states[i], LoadWord)
  {
    hide Run, Do, Checked, Enabled;
    RunStarts(states, steps);
    StepAt(states, steps, i - 1);
    var s, a, r := states[i - 1], steps[i - 1], states[i].reader;
    CopyStep(s, a, r.g, r.len);
    if Checked(s, a, states[i], r.len) {
      CheckedFits(s, a, states[i], r.len);
    } else {
      ReadsInside(states, steps, i - 1);
    }
    CopyGoesOn(states[i]);
  }

  lemma RunStarts(states: seq<State>, steps: seq<Step>)
    requires Run(states, steps)
    ensures |states| > 0 && states[0].reader.Idle?
  {
  }

  lemma CheckedFits(s: State, a: Step, t: State, len: nat)
    requires Checked(s, a, t, len)
    ensures len <= 4 * |t.body|
  {
  }

  lemma CopyGoesOn(s: State)
    requires s.reader.Copying? && s.reader.len <= 4 * |s.body|
    ensures |s.reader.got| < (s.reader.len + 3) / 4 ==> Enabled(s, LoadWord)
  {
  }

  // ---- An insert and a free ----

  lemma StepAt(states: seq<State>, steps: seq<Step>, i: nat)
    requires Run(states, steps) && i + 1 < |states|
    ensures |states| == |steps| + 1 && Enabled(states[i], steps[i]) && states[i + 1] == Do(states[i], steps[i])
  {
  }

  /** The stores among the steps from `j` to `i`. */
  ghost function Stores(steps: seq<Step>, j: nat, i: nat): nat
    requires j <= i <= |steps|
  {
    if i == j then 0 else Stores(steps, j, i - 1) + if steps[i - 1].Store? then 1 else 0
  }

  /** An insert after `k` stores. */
  ghost function After(g: nat, n: nat, v: Value, k: nat): Phase {
    if k < 4 + |v.payload| then Busy(g, n, v, k) else Live(g, n, v)
  }

  lemma InsertStep(s: State, a: Step, g: nat, n: nat, v: Value, k: nat)
    requires Enabled(s, a) && s.phase == After(g, n, v, k) && k <= 4 + |v.payload| && !a.FreeSlot?
    ensures var m := k + if a.Store? then 1 else 0; Do(s, a).phase == After(g, n, v, m) && m <= 4 + |v.payload|
  {
  }

  /**
   Over every run: an insert gets a generation two above the last, takes four stores and one for each word, and then the
   slot is there with the value, whatever readers and other inserts do meanwhile.
   */
  lemma {:induction false} InsertEnds(states: seq<State>, steps: seq<Step>, j: nat, i: nat, n: nat, v: Value)
    requires Run(states, steps) && j < i < |states| == |steps| + 1 && steps[j] == Alloc(n, v)
    requires forall m | j < m < i :: !steps[m].FreeSlot?
    ensures Stores(steps, j + 1, i) <= 4 + |v.payload|
    ensures states[i].phase == After(states[j].genSeq + 2, n, v, Stores(steps, j + 1, i))
    decreases i
  {
    hide Run, Do, Enabled, After;
    StepAt(states, steps, i - 1);
    if i == j + 1 {
      AllocStep(states[j], n, v);
    } else {
      InsertEnds(states, steps, j, i - 1, n, v);
      InsertStep(states[i - 1], steps[i - 1], states[j].genSeq + 2, n, v, Stores(steps, j + 1, i - 1));
    }
  }

  lemma AllocStep(s: State, n: nat, v: Value)
    requires Enabled(s, Alloc(n, v))
    ensures Do(s, Alloc(n, v)).phase == After(s.genSeq + 2, n, v, 0)
  {
  }

  /** Generation `g` was here and is over. */
  ghost predicate Over(s: State, g: nat) {
    g in s.written && s.gen != g && !Still(s, g)
  }

  lemma OverStep(s: State, a: Step, g: nat)
    requires Inv(s) && Enabled(s, a) && Over(s, g)
    ensures Over(Do(s, a), g)
  {
    if Writes(a) {
      GenMoves(s, a, g);
    }
    hide Inv;
  }

  lemma FreeStep(s: State, a: Step, g: nat)
    requires Inv(s) && Enabled(s, a) && a.FreeSlot? && Still(s, g)
    ensures Over(Do(s, a), g)
  {
    HoleWordsAreOdd(0);
    hide Odd;
  }

  lemma {:induction false} OverSince(states: seq<State>, steps: seq<Step>, j: nat, i: nat, g: nat)
    requires Run(states, steps) && j < i < |states| == |steps| + 1 && steps[j].FreeSlot? && Still(states[j], g)
    ensures Over(states[i], g)
    decreases i
  {
    hide Run, Inv, Do, Enabled, Over, Still;
    RunInv(states, steps, i - 1);
    StepAt(states, steps, i - 1);
    if i == j + 1 {
      FreeStep(states[j], steps[j], g);
    } else {
      OverSince(states, steps, j, i - 1, g);
      OverStep(states[i - 1], steps[i - 1], g);
    }
  }

  /** Over every run: a read that ends after a slot was freed does not return its value, however the place is reused. */
  lemma FreedIsNotRead(states: seq<State>, steps: seq<Step>, j: nat, i: nat)
    requires Run(states, steps) && j < i < |steps| && steps[j].FreeSlot?
    requires steps[i].LoadGenAgain? && states[i + 1].reader.ReadOk?
    ensures states[j].phase.Live? && states[i + 1].reader.g != states[j].phase.gen
  {
    assert Enabled(states[j], steps[j]);
    OverSince(states, steps, j, i + 1, states[j].phase.gen);
    ReadsCurrent(states, steps, i);
  }

  // ---- What the place may hold while it is free ----

  ghost predicate Reachable(s: State) {
    exists states, steps :: Run(states, steps) && states[|steps|] == s
  }

  lemma StepReached(s: State, a: Step, t: State)
    requires Reachable(s) && Enabled(s, a) && t == Do(s, a)
    ensures Reachable(t)
  {
    hide Do, Enabled, Start;
    var states, steps :| Run(states, steps) && states[|steps|] == s;
    var states', steps' := states + [t], steps + [a];
    assert Run(states', steps') && states'[|steps'|] == t;
  }

  /** Words after the first `n` of the body change one by one. */
  lemma {:induction false} BodyReached(s: State, body: seq<nat>, n: nat)
    requires Reachable(s) && s.phase.Free? && |body| == |s.body| && n <= |body| && s.body[n..] == body[n..]
    ensures Reachable(s.(body := body))
    decreases n
  {
    if n == 0 {
      assert s.body == body && s.(body := body) == s;
    } else {
      hide Reachable;
      var t := s.(body := s.body[n - 1 := body[n - 1]]);
      StepReached(s, OtherWord(n - 1, body[n - 1]), t);
      assert t.body[n - 1..] == body[n - 1..];
      BodyReached(t, body, n - 1);
      assert t.(body := body) == s.(body := body);
    }
  }

  /**
   The promises above are for whatever others leave here: while the place is free, its header may be any two odd words,
   its length and its body anything at all, and other slots may have taken generations.
   */
  lemma AnythingBetween(s: State, ss: nat, gen: nat, len: nat, body: seq<nat>)
    requires Reachable(s) && s.phase.Free? && Odd(ss) && Odd(gen) && |body| == |s.body|
    ensures Reachable(s.(ss := ss, gen := gen, len := len, body := body, genSeq := s.genSeq + 2))
  {
    var s1 := s.(ss := ss);
    StepReached(s, HoleSize(ss), s1);
    var s2 := s1.(gen := gen);
    StepReached(s1, HoleGen(gen), s2);
    var s3 := s2.(len := len);
    StepReached(s2, OtherLen(len), s3);
    var s4 := s3.(genSeq := s.genSeq + 2);
    StepReached(s3, InsertElsewhere, s4);
    hide Reachable, Odd;
    BodyReached(s4, body, |body|);
    assert s4.(body := body) == s.(ss := ss, gen := gen, len := len, body := body, genSeq := s.genSeq + 2);
  }
}
