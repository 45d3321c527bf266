/**
 Content before the cells that point at it (crates/enchudb-engine/src/publish_gate.rs, used by `live_set` and
 `write_out_body` of crates/enchudb-engine/src/engine.rs), one atomic step at a time.

 A cell of a column names a piece of content. Writers enter the shard of their column and key to write a cell whose
 content may not be on disk yet. A write-out first flushes the content; then, for some columns at a time, it closes
 their shards and waits, takes their marks, flushes the content again if there was a mark, writes the columns, and
 opens. A flush takes the dirty marks of the content, writes that content, and gives the marks back if it fails
 (crates/enchudb-engine/src/segment_map.rs). The second flush is left out when there is no dirty mark
 (crates/enchudb-engine/src/segments.rs).

 Write-outs may overlap, and a write-out may fail.
 */
module PublishGate {
  const GROUPS: nat := 64
  const PER_GROUP: nat := 4

  datatype Shard = Shard(group: nat, i: nat)

  datatype Cell = Cell(column: nat, key: nat)

  function ShardOf(c: Cell): Shard {
    Shard(c.column % GROUPS, c.key % PER_GROUP)
  }

  function GroupShards(columns: set<nat>): set<Shard> {
    set c, i | c in columns && 0 <= i < PER_GROUP :: Shard(c % GROUPS, i)
  }

  datatype Phase = HasContent | Entered | Marked | Wrote

  datatype Writer = Writer(cell: Cell, content: nat, phase: Phase) {
    predicate Inside() {
      phase != HasContent
    }
  }

  /** A write-out: flushing the content for the first time, or past that. */
  datatype Out = First | Ready

  /**
   The flush that has the content's flush lock: what it took to write, what it may call durable when it is done, and
   whether it writes everything and leaves the dirty marks alone.
   */
  datatype Flush = Idle | Flush(id: nat, hand: set<nat>, end: set<nat>, all: bool)

  /** The write-out that has the closer's lock. */
  datatype Closer =
    | Off
    | Closing(id: nat, columns: set<nat>, shards: set<Shard>)             // shards still to be closed
    | Draining(id: nat, columns: set<nat>, shards: set<Shard>)            // shards still to be waited for
    | Taking(id: nat, columns: set<nat>, left: set<nat>, entered: bool)   // columns whose mark is still to be taken
    | Rewriting(id: nat, columns: set<nat>)                               // content to be flushed again
    | Writing(id: nat, columns: set<nat>)
    | Opening(shards: set<Shard>)

  /** `settled`: the whole content has been flushed once since the database was opened. */
  datatype State = State(
    settled: bool, content: set<nat>, contentDisk: set<nat>, dirty: set<nat>, durable: set<nat>,
    mem: map<Cell, nat>, disk: map<Cell, nat>, marks: set<nat>, closed: set<Shard>,
    writers: map<nat, Writer>, outs: map<nat, Out>, flush: Flush, closer: Closer)

  datatype Step =
    | WriteContent(w: nat, cell: Cell, k: nat)
    | Enter(w: nat)
    | SetMark(w: nat)
    | WriteCell(w: nat)
    | Leave(w: nat)
    | WriteDurable(cell: Cell, k: nat)
    | SyncContent(k: nat)
    | StartOut(id: nat)
    | StartFlush(id: nat, end: set<nat>, all: bool)
    | EndFlush(again: bool)
    | FailFlush
    | SkipFlush(end: set<nat>)
    | EndOut(id: nat)
    | Fail
    | StartClose(id: nat, columns: set<nat>)
    | CloseShard(shard: Shard)
    | StartDrain
    | DrainShard(shard: Shard)
    | StartTake
    | TakeMark(column: nat)
    | StartRewrite
    | StartWrite
    | SyncCell(cell: Cell)
    | StartOpen
    | OpenShard(shard: Shard)
    | EndOpen

  ghost predicate At(s: State, w: nat, p: Phase) {
    w in s.writers && s.writers[w].phase == p
  }

  ghost predicate Busy(c: Closer) {
    c.Closing? || c.Draining? || c.Taking? || c.Rewriting? || c.Writing?
  }

  ghost predicate Flushes(s: State, id: nat) {
    s.flush.Flush? && s.flush.id == id
  }

  ghost predicate Enabled(s: State, a: Step) {
    match a
    case WriteContent(w, c, k) => w !in s.writers
    case Enter(w) => At(s, w, HasContent) && ShardOf(s.writers[w].cell) !in s.closed
    case SetMark(w) => At(s, w, Entered)
    case WriteCell(w) => At(s, w, Marked)
    case Leave(w) => At(s, w, Wrote)
    case WriteDurable(c, k) => k in s.durable
    case SyncContent(k) => k in s.content
    case StartOut(id) => id !in s.outs
    case StartFlush(id, end, all) => s.flush.Idle? && id in s.outs && end <= s.content
      && if s.outs[id].First? then all || s.settled else s.closer.Rewriting? && s.closer.id == id && !all
    case EndFlush(again) => s.flush.Flush? && s.flush.hand <= s.contentDisk
    case FailFlush => s.flush.Flush?
    case SkipFlush(end) => s.closer.Rewriting? && s.dirty == {} && end <= s.content && !Flushes(s, s.closer.id)
    case EndOut(id) => id in s.outs && !(Busy(s.closer) && s.closer.id == id) && !Flushes(s, id)
    case Fail => Busy(s.closer) && !Flushes(s, s.closer.id)
    case StartClose(id, columns) => s.closer.Off? && id in s.outs && s.outs[id].Ready?
    case CloseShard(x) => s.closer.Closing? && x in s.closer.shards
    case StartDrain => s.closer.Closing? && s.closer.shards == {}
    case DrainShard(x) => s.closer.Draining? && x in s.closer.shards
      && forall w | w in s.writers && s.writers[w].Inside() :: ShardOf(s.writers[w].cell) != x
    case StartTake => s.closer.Draining? && s.closer.shards == {}
    case TakeMark(c) => s.closer.Taking? && c in s.closer.left
    case StartRewrite => s.closer.Taking? && s.closer.left == {} && s.closer.entered
    case StartWrite => s.closer.Taking? && s.closer.left == {} && !s.closer.entered
    case SyncCell(c) => s.closer.Writing? && c.column in s.closer.columns
    case StartOpen => s.closer.Writing?
    case OpenShard(x) => s.closer.Opening? && x in s.closer.shards
    case EndOpen => s.closer.Opening? && s.closer.shards == {}
  }

  ghost function Goes(s: State, w: nat, p: Phase): State
    requires w in s.writers
  {
    s.(writers := s.writers[w := s.writers[w].(phase := p)])
  }

  ghost function Opens(c: Closer, id: nat, closed: set<Shard>): Closer {
    if Busy(c) && c.id == id then Opening(closed) else c
  }

  ghost function Do(s: State, a: Step): State
    requires Enabled(s, a)
  {
    match a
    case WriteContent(w, c, k) =>
      s.(content := s.content + {k}, dirty := s.dirty + {k}, writers := s.writers[w := Writer(c, k, HasContent)])
    case Enter(w) => Goes(s, w, Entered)
    case SetMark(w) => Goes(s, w, Marked).(marks := s.marks + {s.writers[w].cell.column})
    case WriteCell(w) => Goes(s, w, Wrote).(mem := s.mem[s.writers[w].cell := s.writers[w].content])
    case Leave(w) => s.(writers := s.writers - {w})
    case WriteDurable(c, k) => s.(mem := s.mem[c := k])
    case SyncContent(k) => s.(contentDisk := s.contentDisk + {k})
    case StartOut(id) => s.(outs := s.outs[id := First])
    case StartFlush(id, end, all) =>
      s.(flush := Flush(id, if all then s.content else s.dirty, end, all), dirty := if all then s.dirty else {})
    case EndFlush(again) =>
      if s.flush.id in s.outs && s.outs[s.flush.id].First? then
        s.(flush := Idle, durable := s.durable + s.flush.end, settled := s.settled || s.flush.all,
           outs := if again then s.outs else s.outs[s.flush.id := Ready])
      else
        s.(flush := Idle, durable := s.durable + s.flush.end,
           closer := if s.closer.Rewriting? then Writing(s.closer.id, s.closer.columns) else s.closer)
    case FailFlush =>
      s.(flush := Idle, dirty := if s.flush.all then s.dirty else s.dirty + s.flush.hand, outs := s.outs - {s.flush.id},
         closer := Opens(s.closer, s.flush.id, s.closed))
    case SkipFlush(end) => s.(durable := s.durable + end, closer := Writing(s.closer.id, s.closer.columns))
    case EndOut(id) => s.(outs := s.outs - {id})
    case Fail => s.(outs := s.outs - {s.closer.id}, closer := Opening(s.closed))
    case StartClose(id, columns) => s.(closer := Closing(id, columns, GroupShards(columns)))
    case CloseShard(x) =>
      s.(closed := s.closed + {x}, closer := Closing(s.closer.id, s.closer.columns, s.closer.shards - {x}))
    case StartDrain => s.(closer := Draining(s.closer.id, s.closer.columns, GroupShards(s.closer.columns)))
    case DrainShard(x) => s.(closer := Draining(s.closer.id, s.closer.columns, s.closer.shards - {x}))
    case StartTake => s.(closer := Taking(s.closer.id, s.closer.columns, s.closer.columns, false))
    case TakeMark(c) =>
      s.(marks := s.marks - {c},
         closer := Taking(s.closer.id, s.closer.columns, s.closer.left - {c}, s.closer.entered || c in s.marks))
    case StartRewrite => s.(closer := Rewriting(s.closer.id, s.closer.columns))
    case StartWrite => s.(closer := Writing(s.closer.id, s.closer.columns))
    case SyncCell(c) => if c in s.mem then s.(disk := s.disk[c := s.mem[c]]) else s
    case StartOpen => s.(closer := Opening(GroupShards(s.closer.columns)))
    case OpenShard(x) => s.(closed := s.closed - {x}, closer := Opening(s.closer.shards - {x}))
    case EndOpen => s.(closer := Off)
  }

  /** Just opened: content and cells written before may not be on disk, and nothing marks them. */
  ghost predicate Start(s: State) {
    && !s.settled && s.contentDisk <= s.content && s.dirty == {} && s.durable == {} && s.marks == {} && s.closed == {}
    && s.writers == map[] && s.outs == map[] && s.flush.Idle? && s.closer.Off?
    && (forall c | c in s.mem :: s.mem[c] in s.content)
    && (forall c | c in s.disk :: s.disk[c] in s.contentDisk)
  }

  ghost predicate Run(states: seq<State>, steps: seq<Step>) {
    && |states| == |steps| + 1 && Start(states[0])
    && forall i | 0 <= i < |steps| :: Enabled(states[i], steps[i]) && states[i + 1] == Do(states[i], steps[i])
  }

  /** A write-out gives up after it took a mark and before the content was flushed: the mark is gone. */
  ghost predicate LosesMark(s: State, a: Step) {
    && (a.Fail? || (a.FailFlush? && Busy(s.closer) && Flushes(s, s.closer.id)))
    && ((s.closer.Taking? && s.closer.entered) || s.closer.Rewriting?)
  }

  /** All other write-outs still have their first flush before them, and none of them has begun it. */
  ghost predicate OthersFirst(s: State)
    requires Busy(s.closer)
  {
    && (forall id | id in s.outs && id != s.closer.id :: s.outs[id].First?)
    && (s.flush.Idle? || Flushes(s, s.closer.id))
  }

  /**
   What a run may do: pass over content that is in flight; lose a mark while another write-out is past its first flush
   or has a flush under way.
   */
  datatype Rules = Rules(passesOver: bool, losesMarks: bool)

  ghost predicate Allowed(rules: Rules, s: State, a: Step) {
    && (a.SkipFlush? ==> rules.passesOver || s.flush.Idle?)
    && (LosesMark(s, a) ==> rules.losesMarks || OthersFirst(s))
  }

  ghost predicate Follows(rules: Rules, states: seq<State>, steps: seq<Step>) {
    Run(states, steps) && forall i | 0 <= i < |steps| :: Allowed(rules, states[i], steps[i])
  }

  const CAREFUL := Rules(false, false)

  // ---- Invariant ----

  /** The columns held closed: their shards are closed and have been waited for. */
  ghost function Held(s: State): set<nat> {
    if s.closer.Taking? || s.closer.Rewriting? || s.closer.Writing? then s.closer.columns else {}
  }

  /** Shards nobody can be in. */
  ghost predicate Empty(s: State, x: Shard) {
    forall w | w in s.writers && s.writers[w].Inside() :: ShardOf(s.writers[w].cell) != x
  }

  ghost predicate ClosedOk(s: State) {
    match s.closer
    case Off => s.closed == {}
    case Closing(_, cs, left) => s.closed == GroupShards(cs) - left && left <= GroupShards(cs)
    case Draining(_, cs, _) => s.closed == GroupShards(cs)
    case Taking(_, cs, left, _) => s.closed == GroupShards(cs) && left <= cs
    case Rewriting(_, cs) => s.closed == GroupShards(cs)
    case Writing(_, cs) => s.closed == GroupShards(cs)
    case Opening(left) => s.closed <= left
  }

  ghost predicate DrainedOk(s: State) {
    s.closer.Draining? ==> forall x | x in GroupShards(s.closer.columns) - s.closer.shards :: Empty(s, x)
  }

  ghost predicate ShardsOk(s: State) {
    ClosedOk(s) && DrainedOk(s)
  }

  /** Nobody is inside a group that is held closed. */
  ghost predicate NobodyInside(s: State) {
    forall w | w in s.writers && s.writers[w].Inside() :: ShardOf(s.writers[w].cell) !in GroupShards(Held(s))
  }

  ghost predicate ContentOk(s: State) {
    && s.contentDisk <= s.content && s.dirty <= s.content && s.durable <= s.content
    && (s.flush.Flush? ==> s.flush.hand <= s.content && s.flush.end <= s.content)
    && PointersOk(s)
  }

  ghost predicate PointersOk(s: State) {
    && (forall w | w in s.writers :: s.writers[w].content in s.content)
    && (forall c | c in s.mem :: s.mem[c] in s.content)
  }

  ghost predicate FlushOk(s: State, o: Out)
    requires s.flush.Flush?
  {
    if o.First? then s.flush.all || s.settled else !s.flush.all && s.closer.Rewriting? && s.closer.id == s.flush.id
  }

  ghost predicate OutsOk(s: State) {
    && (Busy(s.closer) ==> s.closer.id in s.outs && s.outs[s.closer.id].Ready?)
    && (forall id | id in s.outs && s.outs[id].Ready? :: s.settled)
    && (s.flush.Flush? ==> s.flush.id in s.outs && FlushOk(s, s.outs[s.flush.id]))
  }

  /** Where content that is not on disk is accounted for. */
  ghost predicate DirtyOk(s: State) {
    && s.durable <= s.contentDisk
    && (s.settled ==>
      s.content <= s.contentDisk + s.dirty + if s.flush.Flush? && !s.flush.all then s.flush.hand else {})
    && (s.flush.Flush? ==> s.flush.end <= s.contentDisk + s.flush.hand)
    && (s.flush.Flush? && s.flush.all ==> s.content <= s.contentDisk + s.dirty + s.flush.hand)
  }

  /** A flush that is running, if any, writes this content. */
  ghost predicate Covered(s: State, k: nat) {
    s.flush.Flush? ==> k in s.contentDisk + s.flush.hand
  }

  /** Content the write-out will put on disk before it writes this column. */
  ghost predicate Owed(s: State, c: Cell)
    requires c in s.mem
  {
    || (s.closer.Taking? && c.column in s.closer.columns - s.closer.left && s.closer.entered)
    || (s.closer.Rewriting? && c.column in s.closer.columns && (Flushes(s, s.closer.id) ==> Covered(s, s.mem[c])))
  }

  /** Content left by a write-out that failed, or by an earlier session: the next first flush writes it. */
  ghost predicate Waits(s: State, c: Cell)
    requires c in s.mem
  {
    (forall id | id in s.outs :: s.outs[id].First?) && Covered(s, s.mem[c])
  }

  /** The columns whose mark has been taken. */
  ghost function Taken(s: State): set<nat> {
    if s.closer.Taking? then s.closer.columns - s.closer.left else Held(s)
  }

  /** The content is on disk, or it will be before the cell is. */
  ghost predicate CellOk(s: State, c: Cell)
    requires c in s.mem
  {
    || s.mem[c] in s.contentDisk
    || ((c.column in s.marks || Owed(s, c) || Waits(s, c)) && !(s.closer.Writing? && c.column in s.closer.columns))
  }

  /** Who has set the mark of a column and has not left keeps it there. */
  ghost predicate MarkedOk(s: State) {
    forall w | w in s.writers && (s.writers[w].phase.Marked? || s.writers[w].phase.Wrote?) ::
      s.writers[w].cell.column in s.marks
  }

  ghost predicate MarksOk(s: State) {
    s.marks !! Taken(s) && MarkedOk(s)
  }

  ghost predicate CellsOk(s: State) {
    MarksOk(s) && forall c | c in s.mem :: CellOk(s, c)
  }

  ghost predicate DiskOk(s: State) {
    forall c | c in s.disk :: s.disk[c] in s.contentDisk
  }

  ghost predicate Inv(s: State) {
    ShardsOk(s) && NobodyInside(s) && ContentOk(s) && OutsOk(s) && DirtyOk(s) && CellsOk(s) && DiskOk(s)
  }

  lemma StartInv(s: State)
    requires Start(s)
    ensures Inv(s)
  {
  }

  lemma ClosedInv(s: State, a: Step)
    requires ClosedOk(s) && Enabled(s, a)
    ensures ClosedOk(Do(s, a))
  {
    hide GroupShards, ShardOf, Flushes;
  }

  lemma DrainedInv(s: State, a: Step)
    requires ShardsOk(s) && Enabled(s, a)
    ensures DrainedOk(Do(s, a))
  {
    var t := Do(s, a);
    if t.closer.Draining? {
      forall x | x in GroupShards(t.closer.columns) - t.closer.shards ensures Empty(t, x) {
        assert a != DrainShard(x) && s.closer.Draining? ==> Empty(s, x);
      }
    }
  }

  lemma ShardsInv(s: State, a: Step)
    requires ShardsOk(s) && Enabled(s, a)
    ensures ShardsOk(Do(s, a))
  {
    hide ClosedOk, DrainedOk, Do, Enabled;
    ClosedInv(s, a);
    DrainedInv(s, a);
  }

  lemma ShardInGroup(c: Cell, columns: set<nat>)
    requires c.column in columns
    ensures ShardOf(c) in GroupShards(columns)
  {
    var i := c.key % PER_GROUP;
    assert Shard(c.column % GROUPS, i) in GroupShards(columns);
  }

  lemma InsideInv(s: State, a: Step)
    requires ShardsOk(s) && NobodyInside(s) && Enabled(s, a)
    ensures NobodyInside(Do(s, a))
  {
    var t := Do(s, a);
    forall w | w in t.writers && t.writers[w].Inside() ensures ShardOf(t.writers[w].cell) !in GroupShards(Held(t)) {
      if a.StartTake? {
        assert forall x | x in GroupShards(s.closer.columns) :: Empty(s, x);
      } else if a == Enter(w) {
        assert Held(t) == Held(s) && (Held(s) != {} ==> s.closed == GroupShards(Held(s)));
      }
    }
  }

  lemma ColumnOutside(s: State, w: nat)
    requires NobodyInside(s) && w in s.writers && s.writers[w].Inside()
    ensures s.writers[w].cell.column !in Held(s)
  {
    if s.writers[w].cell.column in Held(s) {
      ShardInGroup(s.writers[w].cell, Held(s));
    }
  }

  lemma PointersInv(s: State, a: Step)
    requires PointersOk(s) && s.durable <= s.content && Enabled(s, a)
    ensures PointersOk(Do(s, a))
  {
    hide GroupShards, ShardOf, Opens, Busy, Flushes;
  }

  lemma ContentInv(s: State, a: Step)
    requires ContentOk(s) && Enabled(s, a)
    ensures ContentOk(Do(s, a))
  {
    hide GroupShards, ShardOf, Opens, Busy, Flushes, PointersOk;
    PointersInv(s, a);
  }

  lemma OutsInv(s: State, a: Step)
    requires OutsOk(s) && Enabled(s, a)
    ensures OutsOk(Do(s, a))
  {
    hide GroupShards, ShardOf;
  }

  /** With no flush in flight, no dirty mark means that all content is on disk. */
  lemma NothingDirty(s: State)
    requires OutsOk(s) && DirtyOk(s) && s.closer.Rewriting? && s.dirty == {} && s.flush.Idle?
    ensures s.content <= s.contentDisk
  {
  }

  lemma DirtyInv(s: State, a: Step)
    requires ContentOk(s) && OutsOk(s) && DirtyOk(s) && Enabled(s, a) && Allowed(CAREFUL, s, a)
    ensures DirtyOk(Do(s, a))
  {
    hide GroupShards, ShardOf, Opens;
  }

  /** Writers are outside the columns that are held closed. */
  ghost predicate Outside(s: State) {
    forall w | w in s.writers && s.writers[w].Inside() :: s.writers[w].cell.column !in Held(s)
  }

  lemma TakenInv(s: State, a: Step)
    requires ClosedOk(s) && Outside(s) && s.marks !! Taken(s) && Enabled(s, a)
    ensures Do(s, a).marks !! Taken(Do(s, a))
  {
    hide GroupShards, ShardOf, Flushes;
  }

  lemma MarkedInv(s: State, a: Step)
    requires ClosedOk(s) && Outside(s) && MarkedOk(s) && Enabled(s, a)
    ensures MarkedOk(Do(s, a))
  {
    hide GroupShards, ShardOf, Flushes, Opens, Busy;
  }

  lemma MarksInv(s: State, a: Step)
    requires ShardsOk(s) && NobodyInside(s) && MarksOk(s) && Enabled(s, a)
    ensures MarksOk(Do(s, a))
  {
    assert Outside(s) by {
      forall w | w in s.writers && s.writers[w].Inside() ensures s.writers[w].cell.column !in Held(s) {
        ColumnOutside(s, w);
      }
    }
    hide MarkedOk, ClosedOk, DrainedOk, Outside, Enabled, Do, NobodyInside;
    TakenInv(s, a);
    MarkedInv(s, a);
  }

  predicate OfOuts(a: Step) {
    a.SyncContent? || a.StartOut? || a.StartFlush? || a.SkipFlush? || a.EndOut? || a.Fail?
  }

  lemma WrittenCell(s: State, w: nat)
    requires NobodyInside(s) && MarksOk(s) && Enabled(s, WriteCell(w))
    ensures CellOk(Do(s, WriteCell(w)), s.writers[w].cell)
  {
    ColumnOutside(s, w);
  }

  lemma FlushCell(s: State, a: Step, c: Cell)
    requires MarksOk(s) && OutsOk(s) && Enabled(s, a) && Allowed(CAREFUL, s, a) && (a.EndFlush? || a.FailFlush?)
    requires c in s.mem && CellOk(s, c)
    ensures CellOk(Do(s, a), c)
  {
    hide GroupShards, ShardOf;
    assert Busy(s.closer) ==> !Waits(s, c);
  }

  lemma OutCell(s: State, a: Step, c: Cell)
    requires MarksOk(s) && OutsOk(s) && ContentOk(s) && DirtyOk(s)
    requires Enabled(s, a) && Allowed(CAREFUL, s, a) && OfOuts(a) && c in s.mem && CellOk(s, c)
    ensures CellOk(Do(s, a), c)
  {
    hide GroupShards, ShardOf;
    if a.SkipFlush? {
      NothingDirty(s);
    }
    assert Busy(s.closer) ==> !Waits(s, c);
  }

  lemma GateCell(s: State, a: Step, c: Cell)
    requires MarksOk(s) && OutsOk(s) && Enabled(s, a) && !OfOuts(a) && !a.EndFlush? && !a.FailFlush? && c in s.mem
    requires CellOk(s, c)
    requires s.closer.Taking? ==> s.closer.left <= s.closer.columns
    requires c in Do(s, a).mem && Do(s, a).mem[c] == s.mem[c]
    ensures CellOk(Do(s, a), c)
  {
    hide GroupShards, ShardOf;
    assert Busy(s.closer) ==> !Waits(s, c);
  }

  /** No step forgets a cell whose content is not on disk. */
  lemma CellInv(s: State, a: Step, c: Cell)
    requires Inv(s) && Enabled(s, a) && Allowed(CAREFUL, s, a) && c in Do(s, a).mem
    ensures CellOk(Do(s, a), c)
  {
    hide GroupShards, ShardOf, DrainedOk, ContentOk, OutsOk, DiskOk, MarksOk, NobodyInside, Allowed;
    if a.WriteCell? && c == s.writers[a.w].cell {
      WrittenCell(s, a.w);
    } else if !a.WriteDurable? {
      if a.EndFlush? || a.FailFlush? {
        FlushCell(s, a, c);
      } else if OfOuts(a) {
        OutCell(s, a, c);
      } else {
        GateCell(s, a, c);
      }
    }
  }

  lemma CellsInv(s: State, a: Step)
    requires Inv(s) && Enabled(s, a) && Allowed(CAREFUL, s, a)
    ensures CellsOk(Do(s, a))
  {
    hide CellOk, Enabled, Do, MarksOk, ShardsOk, NobodyInside, ContentOk, OutsOk, DirtyOk, Allowed;
    MarksInv(s, a);
    forall c | c in Do(s, a).mem ensures CellOk(Do(s, a), c) {
      CellInv(s, a, c);
    }
  }

  lemma DiskInv(s: State, a: Step)
    requires CellsOk(s) && DiskOk(s) && Enabled(s, a)
    ensures DiskOk(Do(s, a))
  {
    hide GroupShards, ShardOf, Opens, Busy, Flushes, MarksOk, Waits, Owed;
  }

  lemma StepInv(s: State, a: Step)
    requires Inv(s) && Enabled(s, a) && Allowed(CAREFUL, s, a)
    ensures Inv(Do(s, a))
  {
    hide ShardsOk, NobodyInside, ContentOk, OutsOk, DirtyOk, CellsOk, DiskOk, Enabled, Do, Allowed;
    ShardsInv(s, a);
    InsideInv(s, a);
    ContentInv(s, a);
    OutsInv(s, a);
    DirtyInv(s, a);
    CellsInv(s, a);
    DiskInv(s, a);
  }

  lemma {:induction false} RunInv(states: seq<State>, steps: seq<Step>, i: nat)
    requires Follows(CAREFUL, states, steps) && i < |states|
    ensures Inv(states[i])
  {
    if i == 0 {
      StartInv(states[0]);
    } else {
      RunInv(states, steps, i - 1);
      StepInv(states[i - 1], steps[i - 1]);
    }
  }

  ghost predicate ContentThere(s: State) {
    forall c | c in s.disk :: s.disk[c] in s.contentDisk
  }

  /**
   Over every run in which no flush is left out while one is in flight, and no mark is lost while another write-out is
   past its first flush or has a flush under way: no cell on disk points at content that is not on disk.
   */
  lemma ContentFirst(states: seq<State>, steps: seq<Step>, i: nat)
    requires Follows(CAREFUL, states, steps) && i < |states|
    ensures ContentThere(states[i])
  {
    RunInv(states, steps, i);
  }

  /** Over every such run: content called durable, whose cells pass by the gate, is on disk. */
  lemma DurableIsThere(states: seq<State>, steps: seq<Step>, i: nat)
    requires Follows(CAREFUL, states, steps) && i < |states|
    ensures states[i].durable <= states[i].contentDisk
  {
    RunInv(states, steps, i);
  }

  // ---- Write-outs one at a time ----

  ghost predicate OneOut(s: State) {
    forall i, j | i in s.outs && j in s.outs :: i == j
  }

  lemma OneOutInv(s: State, a: Step)
    requires OneOut(s) && Enabled(s, a) && (a.StartOut? ==> s.outs == map[])
    ensures OneOut(Do(s, a))
  {
    hide GroupShards, ShardOf, Opens, Busy, Flushes;
  }

  lemma OneOutAllowed(s: State, a: Step)
    requires OneOut(s) && OutsOk(s) && Enabled(s, a)
    ensures Allowed(CAREFUL, s, a)
  {
    hide GroupShards, ShardOf;
  }

  ghost predicate KeptApart(states: seq<State>, steps: seq<Step>) {
    Run(states, steps) && forall i | 0 <= i < |steps| && steps[i].StartOut? :: states[i].outs == map[]
  }

  lemma {:induction false} ApartRun(states: seq<State>, steps: seq<Step>, i: nat)
    requires KeptApart(states, steps) && i < |states|
    ensures OneOut(states[i]) && OutsOk(states[i])
  {
    if i > 0 {
      hide Do, Enabled, OutsOk, OneOut, Start;
      ApartRun(states, steps, i - 1);
      OneOutInv(states[i - 1], steps[i - 1]);
      OutsInv(states[i - 1], steps[i - 1]);
    }
  }

  /** Write-outs kept apart are careful enough: whatever fails, content is there before its cells. */
  lemma ApartIsEnough(states: seq<State>, steps: seq<Step>, i: nat)
    requires KeptApart(states, steps) && i < |states|
    ensures ContentThere(states[i]) && states[i].durable <= states[i].contentDisk
  {
    forall j | 0 <= j < |steps| ensures Allowed(CAREFUL, states[j], steps[j]) {
      ApartRun(states, steps, j);
      OneOutAllowed(states[j], steps[j]);
    }
    ContentFirst(states, steps, i);
    DurableIsThere(states, steps, i);
  }

  // ---- Who is inside ----

  lemma {:induction false} RunShards(states: seq<State>, steps: seq<Step>, i: nat)
    requires Run(states, steps) && i < |states|
    ensures ShardsOk(states[i]) && NobodyInside(states[i])
  {
    if i > 0 {
      RunShards(states, steps, i - 1);
      ShardsInv(states[i - 1], steps[i - 1]);
      InsideInv(states[i - 1], steps[i - 1]);
    }
  }

  /** Over every run: while a column is held closed, no writer is inside a column of its group. */
  lemma HeldIsEmpty(states: seq<State>, steps: seq<Step>, i: nat, column: nat)
    requires Run(states, steps) && i < |states| && column in Held(states[i])
    ensures forall w | w in states[i].writers && states[i].writers[w].cell.column % GROUPS == column % GROUPS ::
      !states[i].writers[w].Inside()
  {
    RunShards(states, steps, i);
    var s := states[i];
    forall w | w in s.writers && s.writers[w].cell.column % GROUPS == column % GROUPS ensures !s.writers[w].Inside() {
      ShardInGroup(Cell(column, s.writers[w].cell.key), Held(s));
    }
  }

  lemma StepAt(states: seq<State>, steps: seq<Step>, i: nat)
    requires Run(states, steps) && i + 1 < |states|
    ensures |states| == |steps| + 1 && Enabled(states[i], steps[i]) && states[i + 1] == Do(states[i], steps[i])
  {
  }

  // ---- What the cells and the disk hold ----

  /** What the last write of a cell before state `i` gave it, or what it had at the start. */
  ghost function LastPut(states: seq<State>, steps: seq<Step>, i: nat, c: Cell): set<nat>
    requires i <= |steps| < |states|
  {
    if i == 0 then Content(states[0].mem, c)
    else
      var s, a := states[i - 1], steps[i - 1];
      if a.WriteCell? && a.w in s.writers && s.writers[a.w].cell == c then {s.writers[a.w].content}
      else if a.WriteDurable? && a.cell == c then {a.k}
      else LastPut(states, steps, i - 1, c)
  }

  /** The content of a cell, none or one. */
  ghost function Content(m: map<Cell, nat>, c: Cell): set<nat> {
    if c in m then {m[c]} else {}
  }

  lemma PutStep(s: State, a: Step, c: Cell)
    requires Enabled(s, a)
    ensures Content(Do(s, a).mem, c) ==
      if a.WriteCell? && s.writers[a.w].cell == c then {s.writers[a.w].content}
      else if a.WriteDurable? && a.cell == c then {a.k} else Content(s.mem, c)
  {
    hide GroupShards, ShardOf, Opens, Busy, Flushes;
  }

  lemma SyncStep(s: State, a: Step)
    requires Enabled(s, a)
    ensures Do(s, a).disk == s.disk || (a.SyncCell? && Content(Do(s, a).disk, a.cell) == Content(s.mem, a.cell)
      && Do(s, a).disk - {a.cell} == s.disk - {a.cell})
  {
    hide GroupShards, ShardOf, Opens, Busy, Flushes;
  }

  /** Over every run: a cell has what was last written to it, through the gate or past it, whatever is written out. */
  lemma {:induction false} CellIsLastPut(states: seq<State>, steps: seq<Step>, i: nat, c: Cell)
    requires Run(states, steps) && i < |states|
    ensures Content(states[i].mem, c) == LastPut(states, steps, i, c)
  {
    hide Run, Do;
    if i > 0 {
      StepAt(states, steps, i - 1);
      CellIsLastPut(states, steps, i - 1, c);
      PutStep(states[i - 1], steps[i - 1], c);
    }
  }

  /** Over every run: what the disk has of a cell the cell itself has had, or the disk had it at the start. */
  lemma {:induction false} DiskWasCell(states: seq<State>, steps: seq<Step>, i: nat, c: Cell)
    requires Run(states, steps) && i < |states|
    ensures Content(states[i].disk, c) == Content(states[0].disk, c)
      || exists j :: 0 <= j < i && Content(states[i].disk, c) == Content(states[j].mem, c)
  {
    hide Run, Do, Enabled;
    if i > 0 {
      StepAt(states, steps, i - 1);
      DiskWasCell(states, steps, i - 1, c);
      SyncStep(states[i - 1], steps[i - 1]);
      var s, t := states[i - 1], states[i];
      if Content(t.disk, c) != Content(s.disk, c) {
        OtherCell(s.disk, t.disk, steps[i - 1].cell, c);
      }
    }
  }

  lemma OtherCell(d: map<Cell, nat>, e: map<Cell, nat>, x: Cell, c: Cell)
    requires e - {x} == d - {x}
    ensures c != x ==> Content(e, c) == Content(d, c)
  {
    if c != x {
      assert c in e <==> c in e - {x};
      assert c in d <==> c in d - {x};
      assert c in d ==> (d - {x})[c] == d[c] && (e - {x})[c] == e[c];
    }
  }

  lemma DurableStep(s: State, a: Step)
    requires Enabled(s, a)
    ensures Do(s, a).durable == s.durable + Ended(s, a)
  {
    hide GroupShards, ShardOf, Opens, Busy, Flushes;
  }

  /** What a step calls durable: what the flush that ends, or is left out, was to write. */
  ghost function Ended(s: State, a: Step): set<nat> {
    if a.EndFlush? && s.flush.Flush? then s.flush.end else if a.SkipFlush? then a.end else {}
  }

  lemma DurableGrows(s: State, a: Step)
    requires Enabled(s, a)
    ensures s.durable <= Do(s, a).durable && Ended(s, a) <= Do(s, a).durable
  {
    DurableStep(s, a);
    hide Do, Ended;
  }

  lemma {:induction false} DurableStays(states: seq<State>, steps: seq<Step>, i: nat, j: nat, k: nat)
    requires Run(states, steps) && i <= j < |states| && k in states[i].durable
    ensures k in states[j].durable
    decreases j
  {
    hide Run, Do, Enabled, Ended;
    if i < j {
      StepAt(states, steps, j - 1);
      DurableStays(states, steps, i, j - 1, k);
      DurableGrows(states[j - 1], steps[j - 1]);
    }
  }

  /** Over every careful run: what a flush was to write is durable once it has ended, for good, and on disk. */
  lemma FlushedIsDurable(states: seq<State>, steps: seq<Step>, i: nat, j: nat, k: nat)
    requires Follows(CAREFUL, states, steps) && i < j < |states| && k in Ended(states[i], steps[i])
    ensures k in states[j].durable && k in states[j].contentDisk
  {
    StepAt(states, steps, i);
    hide Do, Enabled, Start, Ended;
    DurableGrows(states[i], steps[i]);
    DurableStays(states, steps, i + 1, j, k);
    DurableIsThere(states, steps, j);
  }

  /** Content that is marked dirty, or whose mark a flush has taken. */
  ghost function Marks(s: State): set<nat> {
    s.dirty + if s.flush.Flush? && !s.flush.all then s.flush.hand else {}
  }

  lemma MarksStep(s: State, a: Step)
    requires Enabled(s, a)
    ensures Marks(Do(s, a)) <= Marks(s) + if a.WriteContent? then {a.k} else {}
  {
    hide GroupShards, ShardOf, Opens, Busy, Flushes;
  }

  /** Over every run: only content written in this session is ever dirty, also after flushes of everything that fail. */
  lemma {:induction false} DirtyIsNew(states: seq<State>, steps: seq<Step>, i: nat, k: nat)
    requires Run(states, steps) && i < |states| && k in Marks(states[i])
    ensures exists j :: 0 <= j < i && j < |steps| && steps[j].WriteContent? && steps[j].k == k
  {
    hide Run, Do, Enabled, Marks;
    NothingMarked(states, steps);
    StepAt(states, steps, i - 1);
    MarksStep(states[i - 1], steps[i - 1]);
    if k in Marks(states[i - 1]) {
      DirtyIsNew(states, steps, i - 1, k);
    }
  }

  lemma NothingMarked(states: seq<State>, steps: seq<Step>)
    requires Run(states, steps)
    ensures |states| > 0 && Marks(states[0]) == {}
  {
  }

  /** Over every run: a write-out that fails is over, and every shard that is closed is about to be opened. */
  lemma FailOpens(states: seq<State>, steps: seq<Step>, i: nat)
    requires Run(states, steps) && i < |steps|
    requires steps[i].Fail?
      || (steps[i].FailFlush? && Busy(states[i].closer) && Flushes(states[i], states[i].closer.id))
    ensures var t := states[i + 1];
      states[i].closer.id !in t.outs && t.closer.Opening? && t.closed <= t.closer.shards
  {
    assert states[i + 1] == Do(states[i], steps[i]);
  }

  // ---- Every write-out ends ----

  ghost predicate Sound(s: State) {
    ShardsOk(s) && OutsOk(s) && ContentOk(s)
  }

  lemma StartSound(s: State)
    requires Start(s)
    ensures Sound(s)
  {
    StartInv(s);
  }

  lemma {:induction false} RunSound(states: seq<State>, steps: seq<Step>, i: nat)
    requires Run(states, steps) && i < |states|
    ensures Sound(states[i])
  {
    hide ShardsOk, OutsOk, ContentOk, Do, Enabled;
    if i == 0 {
      StartSound(states[0]);
    } else {
      hide Run;
      StepAt(states, steps, i - 1);
      RunSound(states, steps, i - 1);
      ShardsInv(states[i - 1], steps[i - 1]);
      OutsInv(states[i - 1], steps[i - 1]);
      ContentInv(states[i - 1], steps[i - 1]);
    }
  }

  ghost predicate Calm(s: State) {
    s.writers == map[] && s.outs == map[] && s.flush.Idle? && s.closer.Off?
  }

  /** A new call, a column group begun, a failure, or a write past the gate. */
  ghost predicate Fresh(a: Step) {
    a.WriteContent? || a.WriteDurable? || a.StartOut? || a.StartClose? || a.Fail? || a.FailFlush? || a.SkipFlush?
      || a.SyncCell?
  }

  ghost function PhaseRank(p: Phase): nat {
    match p
    case HasContent => 4
    case Entered => 3
    case Marked => 2
    case Wrote => 1
  }

  ghost function WriterSteps(ws: map<nat, Writer>): set<(nat, nat)> {
    set w, k: nat | w in ws && k < PhaseRank(ws[w].phase) :: (w, k)
  }

  ghost function CloserRank(s: State): nat {
    match s.closer
    case Off => 0
    case Opening(left) => |left| + 1
    case Writing(_, cs) => |GroupShards(cs)| + 2
    case Rewriting(id, cs) => |GroupShards(cs)| + if Flushes(s, id) then 3 else 4
    case Taking(_, cs, left, _) => |GroupShards(cs)| + |left| + 5
    case Draining(_, cs, left) => |GroupShards(cs)| + |cs| + |left| + 6
    case Closing(_, cs, left) => 2 * |GroupShards(cs)| + |cs| + |left| + 7
  }

  ghost function FlushRank(s: State): nat {
    if s.flush.Idle? then 0 else |s.flush.hand - s.contentDisk| + 1
  }

  /** Nearer to the end: fewer write-outs, or the closer further on, or the flush, or the writers. */
  ghost predicate Nearer(t: State, s: State) {
    || |t.outs.Keys| < |s.outs.Keys|
    || (|t.outs.Keys| == |s.outs.Keys| && CloserRank(t) < CloserRank(s))
    || (|t.outs.Keys| == |s.outs.Keys| && CloserRank(t) == CloserRank(s) && FlushRank(t) < FlushRank(s))
    || (|t.outs.Keys| == |s.outs.Keys| && CloserRank(t) == CloserRank(s) && FlushRank(t) == FlushRank(s)
      && |WriterSteps(t.writers)| < |WriterSteps(s.writers)|)
  }

  lemma {:induction false} Smaller<T>(x: set<T>, y: set<T>)
    requires x < y
    ensures |x| < |y|
    decreases |x|
  {
    if x == {} {
      var e :| e in y;
      assert |y| == |y - {e}| + 1;
    } else {
      var e, z :| e in x && z in y && z !in x;
      assert z in y - {e} && z !in x - {e};
      Smaller(x - {e}, y - {e});
    }
  }

  lemma FewerSteps(ws: map<nat, Writer>, ws': map<nat, Writer>, w: nat)
    requires w in ws && ws' - {w} == ws - {w}
    requires w in ws' ==> PhaseRank(ws'[w].phase) < PhaseRank(ws[w].phase)
    ensures |WriterSteps(ws')| < |WriterSteps(ws)|
  {
    forall u, k | (u, k) in WriterSteps(ws') ensures (u, k) in WriterSteps(ws) {
      assert u != w ==> u in ws' - {w} && u in ws - {w} && ws'[u] == (ws' - {w})[u] && ws[u] == (ws - {w})[u];
    }
    var k: nat := PhaseRank(ws[w].phase) - 1;
    assert (w, k) in WriterSteps(ws) && (w, k) !in WriterSteps(ws');
    Smaller(WriterSteps(ws'), WriterSteps(ws));
  }

  /** Every step below brings the whole nearer to the end. */
  ghost predicate Helps(s: State, a: Step) {
    Enabled(s, a) && !Fresh(a) && Nearer(Do(s, a), s)
  }

  ghost predicate OnlyWriters(s: State, t: State) {
    t.outs == s.outs && t.closer == s.closer && t.flush == s.flush && t.contentDisk == s.contentDisk
  }

  /** The next step of a writer. */
  ghost function WriterNext(w: nat, p: Phase): Step {
    match p
    case HasContent => Enter(w)
    case Entered => SetMark(w)
    case Marked => WriteCell(w)
    case Wrote => Leave(w)
  }

  lemma WriterStep(s: State, w: nat)
    requires w in s.writers && (s.writers[w].Inside() || ShardOf(s.writers[w].cell) !in s.closed)
    ensures var a := WriterNext(w, s.writers[w].phase);
      && Enabled(s, a) && !Fresh(a)
      && var t := Do(s, a);
      && OnlyWriters(s, t) && t.writers - {w} == s.writers - {w}
      && (w in t.writers ==> PhaseRank(t.writers[w].phase) < PhaseRank(s.writers[w].phase))
  {
    hide GroupShards, ShardOf;
  }

  lemma WriterHelps(s: State, w: nat) returns (a: Step)
    requires w in s.writers && (s.writers[w].Inside() || ShardOf(s.writers[w].cell) !in s.closed)
    ensures Helps(s, a)
  {
    a := WriterNext(w, s.writers[w].phase);
    WriterStep(s, w);
    hide Do, Enabled, WriterSteps, ShardOf, PhaseRank, Fresh, WriterNext, Nearer;
    var t := Do(s, a);
    FewerSteps(s.writers, t.writers, w);
    WritersNearer(s, t);
  }

  lemma WritersNearer(s: State, t: State)
    requires OnlyWriters(s, t) && |WriterSteps(t.writers)| < |WriterSteps(s.writers)|
    ensures Nearer(t, s)
  {
    hide WriterSteps, GroupShards;
  }

  lemma EndHelps(s: State)
    requires OutsOk(s) && s.flush.Flush? && s.flush.hand <= s.contentDisk
    ensures Enabled(s, EndFlush(false)) && !Fresh(EndFlush(false))
    ensures var t := Do(s, EndFlush(false));
      t.outs.Keys == s.outs.Keys && FlushRank(t) < FlushRank(s) && CloserRank(t) <= CloserRank(s)
  {
    hide GroupShards, ShardOf;
  }

  lemma FlushHelps(s: State) returns (a: Step)
    requires OutsOk(s) && ContentOk(s) && s.flush.Flush?
    ensures Helps(s, a)
  {
    if s.flush.hand <= s.contentDisk {
      a := EndFlush(false);
      EndHelps(s);
      hide Do, Enabled, GroupShards, WriterSteps, Fresh;
    } else {
      hide GroupShards, WriterSteps;
      var k :| k in s.flush.hand && k !in s.contentDisk;
      a := SyncContent(k);
      assert s.flush.hand - (s.contentDisk + {k}) == (s.flush.hand - s.contentDisk) - {k};
    }
  }

  ghost predicate CloserMoves(s: State, a: Step) {
    && Enabled(s, a) && !Fresh(a) && Do(s, a).outs == s.outs && CloserRank(Do(s, a)) < CloserRank(s)
  }

  lemma CloseHelps(s: State) returns (a: Step)
    requires s.closer.Closing?
    ensures CloserMoves(s, a)
  {
    hide GroupShards, ShardOf, Flushes;
    if x :| x in s.closer.shards {
      a := CloseShard(x);
    } else {
      a := StartDrain;
    }
  }

  lemma DrainHelps(s: State) returns (a: Step)
    requires s.closer.Draining? && forall w | w in s.writers :: !s.writers[w].Inside()
    ensures CloserMoves(s, a)
  {
    hide GroupShards, ShardOf, Flushes;
    if x :| x in s.closer.shards {
      a := DrainShard(x);
    } else {
      a := StartTake;
    }
  }

  lemma TakeHelps(s: State) returns (a: Step)
    requires s.closer.Taking?
    ensures CloserMoves(s, a)
  {
    hide GroupShards, ShardOf;
    if c :| c in s.closer.left {
      a := TakeMark(c);
    } else {
      a := if s.closer.entered then StartRewrite else StartWrite;
    }
  }

  lemma WriteHelps(s: State) returns (a: Step)
    requires OutsOk(s) && s.flush.Idle? && (s.closer.Rewriting? || s.closer.Writing?)
    ensures CloserMoves(s, a)
  {
    hide GroupShards, ShardOf;
    a := if s.closer.Rewriting? then StartFlush(s.closer.id, {}, false) else StartOpen;
  }

  lemma OpenHelps(s: State) returns (a: Step)
    requires s.closer.Opening?
    ensures CloserMoves(s, a)
  {
    hide GroupShards, ShardOf;
    if x :| x in s.closer.shards {
      a := OpenShard(x);
    } else {
      a := EndOpen;
    }
  }

  lemma CloserHelps(s: State) returns (a: Step)
    requires OutsOk(s) && s.flush.Idle? && !s.closer.Off?
    requires forall w | w in s.writers :: !s.writers[w].Inside()
    ensures Helps(s, a)
  {
    if s.closer.Closing? {
      a := CloseHelps(s);
    } else if s.closer.Draining? {
      a := DrainHelps(s);
    } else if s.closer.Taking? {
      a := TakeHelps(s);
    } else if s.closer.Opening? {
      a := OpenHelps(s);
    } else {
      a := WriteHelps(s);
    }
    hide Do, Enabled, Fresh, CloserRank, FlushRank, WriterSteps;
  }

  lemma OutHelps(s: State, id: nat) returns (a: Step)
    requires id in s.outs && s.flush.Idle? && s.closer.Off?
    ensures Helps(s, a)
  {
    a := EndOut(id);
    assert Do(s, a).outs.Keys == s.outs.Keys - {id};
  }

  /** As long as anything is under way, someone can go on: writers wait for the closer, never it for one that waits. */
  lemma SomeoneHelps(s: State) returns (a: Step)
    requires Sound(s) && !Calm(s)
    ensures Helps(s, a)
  {
    hide OutsOk, ContentOk, DrainedOk, Helps;
    if w :| w in s.writers && s.writers[w].Inside() {
      a := WriterHelps(s, w);
    } else if s.flush.Flush? {
      a := FlushHelps(s);
    } else if !s.closer.Off? {
      a := CloserHelps(s);
    } else if w :| w in s.writers {
      a := WriterHelps(s, w);
    } else {
      var id :| id in s.outs;
      a := OutHelps(s, id);
    }
  }

  /**
   Every run can be brought to rest with no new call, no failure and no flush left out: no writer and no write-out waits
   for ever for another, and the gate is open at the end.
   */
  lemma {:induction false} ComesToRest(states: seq<State>, steps: seq<Step>)
    returns (states': seq<State>, steps': seq<Step>)
    requires Run(states, steps)
    ensures Run(states', steps') && states <= states' && steps <= steps'
    ensures Calm(states'[|steps'|]) && states'[|steps'|].closed == {}
    ensures forall k | |steps| <= k < |steps'| :: !Fresh(steps'[k])
    decreases |states[|steps|].outs.Keys|, CloserRank(states[|steps|]), FlushRank(states[|steps|]),
      |WriterSteps(states[|steps|].writers)|
  {
    var s := states[|steps|];
    RunSound(states, steps, |steps|);
    if Calm(s) {
      return states, steps;
    }
    var a := SomeoneHelps(s);
    var more := RunOn(states, steps, a);
    hide Do, Enabled, Fresh, Run, CloserRank, FlushRank, WriterSteps, Sound;
    states', steps' := ComesToRest(more, steps + [a]);
    forall k | |steps| <= k < |steps'| ensures !Fresh(steps'[k]) {
      assert k == |steps| ==> steps'[k] == (steps + [a])[k];
    }
  }

  lemma RunOn(states: seq<State>, steps: seq<Step>, a: Step) returns (more: seq<State>)
    requires Run(states, steps) && Enabled(states[|steps|], a)
    ensures more == states + [Do(states[|steps|], a)] && Run(more, steps + [a])
  {
    hide Do, Enabled, Start;
    more := states + [Do(states[|steps|], a)];
  }

  // ---- Runs that break the promise ----

  ghost predicate Reachable(rules: Rules, s: State) {
    exists states, steps :: Follows(rules, states, steps) && states[|steps|] == s
  }

  lemma StartReached(rules: Rules, s: State)
    requires Start(s)
    ensures Reachable(rules, s)
  {
    var states, steps: seq<Step> := [s], [];
    assert Follows(rules, states, steps) && states[|steps|] == s;
  }

  lemma StepReached(rules: Rules, s: State, a: Step)
    requires Reachable(rules, s) && Enabled(s, a) && Allowed(rules, s, a)
    ensures Reachable(rules, Do(s, a))
  {
    hide Allowed, Do, Enabled, Start;
    var states, steps :| Follows(rules, states, steps) && states[|steps|] == s;
    var states', steps' := states + [Do(s, a)], steps + [a];
    assert Follows(rules, states', steps') && states'[|steps'|] == Do(s, a);
  }

  lemma {:induction false} ClosesAll(rules: Rules, s: State)
    requires Reachable(rules, s) && s.closer.Closing?
    ensures Reachable(rules,
      s.(closed := s.closed + s.closer.shards, closer := Closing(s.closer.id, s.closer.columns, {})))
    decreases |s.closer.shards|
  {
    if s.closer.shards == {} {
      assert s.closed + s.closer.shards == s.closed;
    } else {
      var x :| x in s.closer.shards;
      StepReached(rules, s, CloseShard(x));
      var t := Do(s, CloseShard(x));
      ClosesAll(rules, t);
      assert t.closed + t.closer.shards == s.closed + s.closer.shards;
    }
  }

  lemma {:induction false} DrainsAll(rules: Rules, s: State)
    requires Reachable(rules, s) && s.closer.Draining? && s.writers == map[]
    ensures Reachable(rules, s.(closer := Draining(s.closer.id, s.closer.columns, {})))
    decreases |s.closer.shards|
  {
    if s.closer.shards != {} {
      var x :| x in s.closer.shards;
      StepReached(rules, s, DrainShard(x));
      DrainsAll(rules, Do(s, DrainShard(x)));
    }
  }

  /** With no writer about, a ready write-out gets to the marks of a column. */
  lemma TakesColumn(rules: Rules, s: State, id: nat, column: nat)
    requires Reachable(rules, s) && s.closer.Off? && s.closed == {} && s.writers == map[] && id in s.outs
    requires s.outs[id].Ready?
    ensures Reachable(rules,
      s.(closed := GroupShards({column}), marks := s.marks - {column},
      closer := Taking(id, {column}, {}, column in s.marks)))
  {
    hide GroupShards, Reachable;
    var a := StartClose(id, {column});
    StepReached(rules, s, a);
    var s1 := Do(s, a);
    ClosesAll(rules, s1);
    var s2 := s1.(closed := GroupShards({column}), closer := Closing(id, {column}, {}));
    assert s1.closed + s1.closer.shards == GroupShards({column});
    StepReached(rules, s2, StartDrain);
    var s3 := Do(s2, StartDrain);
    DrainsAll(rules, s3);
    var s4 := s3.(closer := Draining(id, {column}, {}));
    StepReached(rules, s4, StartTake);
    var s5 := Do(s4, StartTake);
    StepReached(rules, s5, TakeMark(column));
    assert {column} - {column} == {};
    assert Do(s5, TakeMark(column)) == s.(closed := GroupShards({column}), marks := s.marks - {column},
      closer := Taking(id, {column}, {}, column in s.marks));
  }

  /** A new database, and one write-out past its first flush. */
  ghost function OneReady(): State {
    State(true, {}, {}, {}, {}, map[], map[], {}, {}, map[], map[1 := Ready], Idle, Off)
  }

  lemma OneReadyReached(rules: Rules)
    ensures Reachable(rules, OneReady())
  {
    var s := OneReady().(settled := false, outs := map[]);
    StartReached(rules, s);
    hide Reachable, GroupShards, Run, Start;
    StepReached(rules, s, StartOut(1));
    var s1 := s.(outs := map[1 := First]);
    assert Do(s, StartOut(1)) == s1;
    FirstFlush(rules, s1);
  }

  lemma FirstFlush(rules: Rules, s: State)
    requires Reachable(rules, s) && s == OneReady().(settled := false, outs := map[1 := First])
    ensures Reachable(rules, OneReady())
  {
    hide Reachable, GroupShards, Run;
    var a := StartFlush(1, {}, true);
    StepReached(rules, s, a);
    var s1 := s.(flush := Flush(1, {}, {}, true));
    assert Do(s, a) == s1;
    StepReached(rules, s1, EndFlush(false));
    assert Do(s1, EndFlush(false)) == OneReady();
  }

  /** A piece of content is written, a second write-out takes it to flush, and then a cell is written. */
  ghost function ContentInHand(): State {
    State(true, {7}, {}, {}, {}, map[Cell(0, 0) := 7], map[], {0}, {}, map[], map[1 := Ready, 2 := First],
          Flush(2, {7}, {}, false), Off)
  }

  lemma ContentInHandReached(rules: Rules)
    ensures Reachable(rules, ContentInHand())
  {
    OneReadyReached(rules);
    hide Reachable, GroupShards, Run;
    var s, c := OneReady(), Cell(0, 0);
    StepReached(rules, s, WriteContent(0, c, 7));
    var s1 := s.(content := {7}, dirty := {7}, writers := map[0 := Writer(c, 7, HasContent)]);
    assert Do(s, WriteContent(0, c, 7)) == s1;
    StepReached(rules, s1, StartOut(2));
    var s2 := s1.(outs := map[1 := Ready, 2 := First]);
    assert Do(s1, StartOut(2)) == s2;
    var a := StartFlush(2, {}, false);
    StepReached(rules, s2, a);
    var s3 := s2.(dirty := {}, flush := Flush(2, {7}, {}, false));
    assert Do(s2, a) == s3;
    CellWritten(rules, s3);
  }

  lemma CellWritten(rules: Rules, s: State)
    requires Reachable(rules, s) && s.marks == {} && s.closed == {} && s.mem == map[]
    requires s.writers == map[0 := Writer(Cell(0, 0), 7, HasContent)]
    ensures Reachable(rules, s.(writers := map[], marks := {0}, mem := map[Cell(0, 0) := 7]))
  {
    hide Reachable, GroupShards, Run;
    var c := Cell(0, 0);
    MarkSet(rules, s);
    var s2 := s.(writers := map[0 := Writer(c, 7, Marked)], marks := {0});
    StepReached(rules, s2, WriteCell(0));
    var s3 := s2.(writers := map[0 := Writer(c, 7, Wrote)], mem := map[c := 7]);
    assert Do(s2, WriteCell(0)) == s3;
    StepReached(rules, s3, Leave(0));
    assert Do(s3, Leave(0)) == s.(writers := map[], marks := {0}, mem := map[c := 7]);
  }

  lemma MarkSet(rules: Rules, s: State)
    requires Reachable(rules, s) && s.marks == {} && s.closed == {}
    requires s.writers == map[0 := Writer(Cell(0, 0), 7, HasContent)]
    ensures Reachable(rules, s.(writers := map[0 := Writer(Cell(0, 0), 7, Marked)], marks := {0}))
  {
    hide Reachable, GroupShards, Run;
    var c := Cell(0, 0);
    StepReached(rules, s, Enter(0));
    var s1 := s.(writers := map[0 := Writer(c, 7, Entered)]);
    assert Do(s, Enter(0)) == s1;
    StepReached(rules, s1, SetMark(0));
    assert Do(s1, SetMark(0)) == s.(writers := map[0 := Writer(c, 7, Marked)], marks := {0});
  }

  /**
   A run that breaks the promise: the first write-out takes the mark of the column, finds no dirty mark since the
   second has taken it, does not wait, and writes the column.
   */
  lemma FlushInFlight(rules: Rules)
    requires rules.passesOver
    ensures exists s :: Reachable(rules, s) && !ContentThere(s)
  {
    ContentInHandReached(rules);
    hide Reachable, GroupShards;
    var s, c := ContentInHand(), Cell(0, 0);
    TakesColumn(rules, s, 1, 0);
    var s1 := s.(closed := GroupShards({0}), marks := s.marks - {0}, closer := Taking(1, {0}, {}, true));
    StepReached(rules, s1, StartRewrite);
    var s2 := s1.(closer := Rewriting(1, {0}));
    assert Do(s1, StartRewrite) == s2;
    StepReached(rules, s2, SkipFlush({}));
    var s3 := s2.(closer := Writing(1, {0}));
    assert Do(s2, SkipFlush({})) == s3;
    WrittenTooSoon(rules, s3, 1);
  }

  lemma WrittenTooSoon(rules: Rules, s: State, id: nat)
    requires Reachable(rules, s) && s.closer == Writing(id, {0}) && s.mem == map[Cell(0, 0) := 7] && 7 !in s.contentDisk
    ensures exists t :: Reachable(rules, t) && !ContentThere(t)
  {
    hide Reachable;
    var c := Cell(0, 0);
    StepReached(rules, s, SyncCell(c));
    var t := Do(s, SyncCell(c));
    assert c in t.disk && t.disk[c] == 7 && !ContentThere(t);
  }

  /** Two write-outs past their first flush, then a cell with its content. */
  ghost function TwoReady(): State {
    State(true, {7}, {}, {7}, {}, map[Cell(0, 0) := 7], map[], {0}, {}, map[], map[1 := Ready, 2 := Ready], Idle, Off)
  }

  lemma TwoReadyReached(rules: Rules)
    ensures Reachable(rules, TwoReady())
  {
    OneReadyReached(rules);
    hide Reachable, GroupShards, Run;
    var s, c := OneReady(), Cell(0, 0);
    StepReached(rules, s, StartOut(2));
    var s1 := s.(outs := map[1 := Ready, 2 := First]);
    assert Do(s, StartOut(2)) == s1;
    SecondFlush(rules, s1);
    var s2 := s.(outs := map[1 := Ready, 2 := Ready]);
    StepReached(rules, s2, WriteContent(0, c, 7));
    var s3 := s2.(content := {7}, dirty := {7}, writers := map[0 := Writer(c, 7, HasContent)]);
    assert Do(s2, WriteContent(0, c, 7)) == s3;
    CellWritten(rules, s3);
  }

  lemma SecondFlush(rules: Rules, s: State)
    requires Reachable(rules, s) && s == OneReady().(outs := map[1 := Ready, 2 := First])
    ensures Reachable(rules, s.(outs := map[1 := Ready, 2 := Ready]))
  {
    hide Reachable, GroupShards, Run;
    var a := StartFlush(2, {}, false);
    StepReached(rules, s, a);
    var s1 := s.(flush := Flush(2, {}, {}, false));
    assert Do(s, a) == s1;
    StepReached(rules, s1, EndFlush(false));
    assert Do(s1, EndFlush(false)) == s.(outs := map[1 := Ready, 2 := Ready]);
  }

  /** The second write-out takes the mark, its flush fails, and it opens. */
  lemma MarkTakenInVain(rules: Rules)
    requires rules.losesMarks
    ensures Reachable(rules, TwoReady().(marks := {}, outs := map[1 := Ready]))
  {
    TwoReadyReached(rules);
    hide Reachable, GroupShards;
    var s := TwoReady();
    TakesColumn(rules, s, 2, 0);
    assert s.marks - {0} == {};
    var s1 := s.(closed := GroupShards({0}), marks := {}, closer := Taking(2, {0}, {}, true));
    StepReached(rules, s1, StartRewrite);
    var s2 := s1.(closer := Rewriting(2, {0}));
    assert Do(s1, StartRewrite) == s2;
    FlushFails(rules, s2);
    var s3 := s2.(outs := map[1 := Ready], closer := Opening(s2.closed));
    OpensAll(rules, s3);
    assert s3.closed - s3.closer.shards == {};
  }

  lemma FlushFails(rules: Rules, s: State)
    requires Reachable(rules, s) && rules.losesMarks && s.closer == Rewriting(2, {0}) && s.flush.Idle? && s.dirty == {7}
    requires s.outs == map[1 := Ready, 2 := Ready]
    ensures Reachable(rules, s.(outs := map[1 := Ready], closer := Opening(s.closed)))
  {
    hide Reachable;
    var a := StartFlush(2, {}, false);
    StepReached(rules, s, a);
    var s1 := s.(dirty := {}, flush := Flush(2, {7}, {}, false));
    assert Do(s, a) == s1;
    StepReached(rules, s1, FailFlush);
    assert Do(s1, FailFlush) == s.(outs := map[1 := Ready], closer := Opening(s.closed));
  }

  lemma {:induction false} OpensAll(rules: Rules, s: State)
    requires Reachable(rules, s) && s.closer.Opening?
    ensures Reachable(rules, s.(closed := s.closed - s.closer.shards, closer := Off))
    decreases |s.closer.shards|
  {
    hide Reachable;
    if s.closer.shards == {} {
      StepReached(rules, s, EndOpen);
      assert s.closed - s.closer.shards == s.closed;
    } else {
      var x :| x in s.closer.shards;
      StepReached(rules, s, OpenShard(x));
      var t := Do(s, OpenShard(x));
      OpensAll(rules, t);
      assert t.closed - t.closer.shards == s.closed - s.closer.shards;
    }
  }

  /**
   Another one: with the mark taken in vain, the first write-out, past its own first flush, finds no mark and writes the
   column.
   */
  lemma MarkForgotten(rules: Rules)
    requires rules.losesMarks
    ensures exists s :: Reachable(rules, s) && !ContentThere(s)
  {
    MarkTakenInVain(rules);
    hide Reachable, GroupShards;
    var s := TwoReady().(marks := {}, outs := map[1 := Ready]);
    TakesColumn(rules, s, 1, 0);
    assert s.marks - {0} == {};
    var s1 := s.(closed := GroupShards({0}), closer := Taking(1, {0}, {}, false));
    StepReached(rules, s1, StartWrite);
    var s2 := s1.(closer := Writing(1, {0}));
    assert Do(s1, StartWrite) == s2;
    WrittenTooSoon(rules, s2, 1);
  }

  /**
   Content is before its cells in every run that keeps to the rules, if and only if they forbid both: to leave a flush
   out while one is in flight, and to lose a mark while another write-out is past its first flush or has a flush under
   way.
   */
  lemma WhenContentFirst(rules: Rules)
    ensures (forall s | Reachable(rules, s) :: ContentThere(s)) <==> !rules.passesOver && !rules.losesMarks
  {
    if rules.passesOver {
      FlushInFlight(rules);
    } else if rules.losesMarks {
      MarkForgotten(rules);
    } else {
      assert rules == CAREFUL;
      forall s | Reachable(rules, s) ensures ContentThere(s) {
        var states, steps :| Follows(rules, states, steps) && states[|steps|] == s;
        ContentFirst(states, steps, |steps|);
      }
    }
  }
}
