/**
 Handing out eids (crates/enchudb-engine/src/entity_set.rs): a counter, a bit for each eid in use, and a stack of
 freed eids, shared by any number of threads, one atomic step at a time. The cap may grow at any moment.
 */
module EntitySet {
  /** Where a thread is inside `allocate_tracked` or `free`. */
  datatype Thread =
    | Fetched(eid: nat)              // the counter gave a number, not compared with the cap yet
    | Took(eid: nat)                 // it was below the cap
    | Over                           // it was not: the counter is to be put back
    | AtStack                        // put back; about to pop
    | Popped(eid: nat)               // popped, the bit not set yet
    | Uncounted(eid: nat)            // the bit is set, not counted yet
    | Returned(eid: nat)             // the call has returned the eid
    | Cleared(eid: nat)              // the bit was cleared, not counted out yet
    | ToPush(eid: nat)               // counted out, not on the stack yet

  /**
   `cap` is the number of eids, `room` that of the free stack. `lost` are eids in no place: freed ones the stack had no
   room for, and those that a stop in the middle of a call left nowhere.
   */
  datatype State = State(
    cap: nat, room: nat, next: nat, bits: set<nat>, stack: seq<nat>, count: int, threads: map<nat, Thread>,
    lost: set<nat>)

  datatype Step =
    | FetchAdd(t: nat)
    | LoadCap(t: nat)
    | PutBack(t: nat)
    | Pop(t: nat)
    | SetBit(t: nat)
    | CountIn(t: nat)
    | Forget(t: nat)
    | ClearBit(t: nat, eid: nat)
    | CountOut(t: nat)
    | Push(t: nat)
    | Grow(t: nat, cap: nat)

  ghost predicate Enabled(s: State, a: Step) {
    match a
    case FetchAdd(t) => t !in s.threads
    case LoadCap(t) => t in s.threads && s.threads[t].Fetched?
    case PutBack(t) => t in s.threads && s.threads[t].Over? && s.next > 0
    case Pop(t) => t in s.threads && s.threads[t].AtStack?
    case SetBit(t) => t in s.threads && (s.threads[t].Took? || s.threads[t].Popped?)
    case CountIn(t) => t in s.threads && s.threads[t].Uncounted?
    case Forget(t) => t in s.threads && s.threads[t].Returned?
    case ClearBit(t, _) => t !in s.threads
    case CountOut(t) => t in s.threads && s.threads[t].Cleared?
    case Push(t) => t in s.threads && s.threads[t].ToPush?
    case Grow(t, _) => t !in s.threads
  }

  ghost function Goes(s: State, t: nat, p: Thread): State {
    s.(threads := s.threads[t := p])
  }

  ghost function Leaves(s: State, t: nat): State {
    s.(threads := s.threads - {t})
  }

  ghost function Raised(cap: nat, n: nat): nat {
    if cap < n then n else cap
  }

  ghost function Do(s: State, a: Step): State
    requires Enabled(s, a)
  {
    match a
    case FetchAdd(t) => Goes(s, t, Fetched(s.next)).(next := s.next + 1)
    case LoadCap(t) => Goes(s, t, if s.threads[t].eid < s.cap then Took(s.threads[t].eid) else Over)
    case PutBack(t) => Goes(s, t, AtStack).(next := s.next - 1)
    case Pop(t) =>
      if s.stack == [] then Leaves(s, t)
      else Goes(s, t, Popped(s.stack[|s.stack| - 1])).(stack := s.stack[..|s.stack| - 1])
    case SetBit(t) => Goes(s, t, Uncounted(s.threads[t].eid)).(bits := s.bits + {s.threads[t].eid})
    case CountIn(t) => Goes(s, t, Returned(s.threads[t].eid)).(count := s.count + 1)
    case Forget(t) => Leaves(s, t)
    case ClearBit(t, e) => if e < s.cap && e in s.bits then Goes(s, t, Cleared(e)).(bits := s.bits - {e}) else s
    case CountOut(t) => Goes(s, t, ToPush(s.threads[t].eid)).(count := s.count - 1)
    case Push(t) =>
      if |s.stack| < s.room then Leaves(s, t).(stack := s.stack + [s.threads[t].eid])
      else Leaves(s, t).(lost := s.lost + {s.threads[t].eid})
    case Grow(_, n) => s.(cap := Raised(s.cap, n))
  }

  /** A new set, or one read from a file. */
  ghost predicate Start(s: State) {
    && s.threads == map[] && s.next <= s.cap && s.count == |s.bits| && PiledOk(s) && |s.stack| <= s.room
    && forall e: nat | e < s.next :: e in s.bits || e in s.stack || e in s.lost
  }

  ghost predicate Path(states: seq<State>, steps: seq<Step>) {
    && |states| == |steps| + 1
    && forall i | 0 <= i < |steps| :: Enabled(states[i], steps[i]) && states[i + 1] == Do(states[i], steps[i])
  }

  ghost predicate Run(states: seq<State>, steps: seq<Step>) {
    Path(states, steps) && Start(states[0])
  }

  // ---- Invariant ----

  /** A thread has this eid in its hands. */
  ghost predicate Has(p: Thread, e: nat) {
    (p.Took? || p.Popped? || p.Cleared? || p.ToPush?) && p.eid == e
  }

  /** It has it, or will have it once it has looked at the cap; and nobody else does. */
  ghost predicate Holds(p: Thread, e: nat, cap: nat) {
    Has(p, e) || (p == Fetched(e) && e < cap)
  }

  /** What a thread still owes: the counter a step back, the count one up, the count one down. */
  datatype Debt = Nothing | StepBack | OneUp | OneDown

  ghost function Owes(p: Thread, cap: nat): Debt {
    if p.Over? || (p.Fetched? && cap <= p.eid) then StepBack
    else if p.Uncounted? then OneUp
    else if p.Cleared? then OneDown
    else Nothing
  }

  ghost function Owing(threads: map<nat, Thread>, cap: nat, d: Debt): set<nat> {
    set t | t in threads && Owes(threads[t], cap) == d
  }

  lemma OwingAfter(threads: map<nat, Thread>, cap: nat, t: nat, p: Thread, d: Debt)
    ensures Owing(threads[t := p], cap, d) ==
      if Owes(p, cap) == d then Owing(threads, cap, d) + {t} else Owing(threads, cap, d) - {t}
    ensures Owing(threads - {t}, cap, d) == Owing(threads, cap, d) - {t}
    ensures t in Owing(threads, cap, d) <==> t in threads && Owes(threads[t], cap) == d
  {
  }

  /** Where the counter stands once every thread that finds its number at or above `cap` has put it back. */
  ghost function MarkAt(s: State, cap: nat): int {
    s.next - |Owing(s.threads, cap, StepBack)|
  }

  ghost function Mark(s: State): int {
    MarkAt(s, s.cap)
  }

  /** While a thread has to put the counter back, there is no fresh eid but the one at the mark. */
  ghost predicate NextOk(s: State) {
    0 <= Mark(s) && (Owing(s.threads, s.cap, StepBack) != {} ==> s.cap <= Mark(s) + 1)
  }

  /** Every eid is in one place at most, and below the mark. */
  ghost predicate Below(s: State, e: nat) {
    e < Mark(s) && e < s.cap
  }

  /** The thread has a number it would go over with at the present cap, and will take at cap `n`. */
  ghost predicate Takes(s: State, n: nat, t: nat) {
    t in s.threads && s.threads[t].Fetched? && s.cap <= s.threads[t].eid < n
  }

  /**
   Growing the cap to `n`: the numbers that become eids are below the mark there will be, no two the same; and no thread
   is left that has to put the counter back, or the cap stays one above that mark at most.
   */
  ghost predicate CarefulTo(s: State, n: nat) {
    var mark := MarkAt(s, Raised(s.cap, n));
    && (forall t | Takes(s, n, t) :: s.threads[t].eid < mark)
    && (forall t, u | Takes(s, n, t) && Takes(s, n, u) && s.threads[t].eid == s.threads[u].eid :: t == u)
    && (Owing(s.threads, Raised(s.cap, n), StepBack) == {} || n <= mark + 1)
  }

  ghost predicate Careful(s: State, a: Step) {
    a.Grow? ==> CarefulTo(s, a.cap)
  }

  ghost predicate CarefulRun(states: seq<State>, steps: seq<Step>) {
    Run(states, steps) && forall i | 0 <= i < |steps| :: Careful(states[i], steps[i])
  }

  /** Eids in use, on the stack and lost ones are apart, none twice on the stack. */
  ghost predicate PiledOk(s: State) {
    && (forall e | e in s.bits || e in s.stack || e in s.lost :: Below(s, e))
    && (forall e | e in s.stack :: e !in s.bits && e !in s.lost) && s.bits !! s.lost
    && (forall i, j | 0 <= i < j < |s.stack| :: s.stack[i] != s.stack[j])
  }

  ghost predicate HandOk(s: State, e: nat) {
    Below(s, e) && e !in s.bits && e !in s.stack && e !in s.lost
  }

  ghost predicate HandsOk(s: State) {
    && (forall t, e | t in s.threads && Holds(s.threads[t], e, s.cap) :: HandOk(s, e))
    && (forall t, u, e | t in s.threads && u in s.threads && Holds(s.threads[t], e, s.cap) && Holds(s.threads[u], e,
      s.cap) ::
        t == u)
  }

  ghost predicate PlacesOk(s: State) {
    PiledOk(s) && HandsOk(s)
  }

  ghost predicate CountOk(s: State) {
    s.count + |Owing(s.threads, s.cap, OneUp)| == |s.bits| + |Owing(s.threads, s.cap, OneDown)|
  }

  ghost predicate Inv(s: State) {
    NextOk(s) && PlacesOk(s) && CountOk(s)
  }

  lemma StartInv(s: State)
    requires Start(s)
    ensures Inv(s)
  {
  }

  ghost function One(b: bool): int {
    if b then 1 else 0
  }

  ghost function OwesAt(threads: map<nat, Thread>, cap: nat, t: nat): Debt {
    if t in threads then Owes(threads[t], cap) else Nothing
  }

  /** A step moves one thread: what is owed changes by what that thread owes. */
  lemma Ledger(s: State, a: Step, d: Debt)
    requires Enabled(s, a) && !a.Grow? && d != Nothing
    ensures var t := Do(s, a).threads;
      |Owing(t, s.cap, d)| ==
        |Owing(s.threads, s.cap, d)| + One(OwesAt(t, s.cap, a.t) == d) - One(OwesAt(s.threads, s.cap, a.t) == d)
    ensures OwesAt(s.threads, s.cap, a.t) == d ==> |Owing(s.threads, s.cap, d)| > 0
  {
    var t := Do(s, a).threads;
    assert t == if a.t in t then s.threads[a.t := t[a.t]] else s.threads - {a.t};
    hide Do, Enabled;
    if a.t in t {
      OwingAfter(s.threads, s.cap, a.t, t[a.t], d);
    } else {
      OwingAfter(s.threads, s.cap, a.t, Over, d);
    }
    hide Owing;
    Cards(Owing(s.threads, s.cap, d), a.t);
  }

  /** The mark moves only when the counter gives a number below the cap. */
  lemma MarkMoves(s: State, a: Step)
    requires Enabled(s, a) && !a.Grow?
    ensures Do(s, a).cap == s.cap && Mark(Do(s, a)) == Mark(s) + if a.FetchAdd? && s.next < s.cap then 1 else 0
    ensures NextOk(s) && a.FetchAdd? && s.next < s.cap ==> s.next == Mark(s)
  {
    Ledger(s, a, StepBack);
    hide Owing;
    if Owing(s.threads, s.cap, StepBack) != {} {
      assert |Owing(s.threads, s.cap, StepBack)| > 0;
    }
  }

  lemma NextInv(s: State, a: Step)
    requires NextOk(s) && Enabled(s, a) && !a.Grow?
    ensures NextOk(Do(s, a))
  {
    MarkMoves(s, a);
    Ledger(s, a, StepBack);
    hide Owing;
    var t := Do(s, a).threads;
    if Owing(t, s.cap, StepBack) != {} && !a.FetchAdd? {
      assert |Owing(t, s.cap, StepBack)| > 0;
      assert Owing(s.threads, s.cap, StepBack) != {};
    }
  }

  lemma PlacesInv(s: State, a: Step)
    requires NextOk(s) && PlacesOk(s) && Enabled(s, a) && !a.Grow?
    ensures PlacesOk(Do(s, a))
  {
    MarkMoves(s, a);
    PiledInv(s, a);
    HandsInv(s, a);
  }

  ghost predicate MarkOk(s: State, a: Step)
    requires Enabled(s, a)
  {
    && !a.Grow? && Do(s, a).cap == s.cap
    && Mark(Do(s, a)) == Mark(s) + (if a.FetchAdd? && s.next < s.cap then 1 else 0)
    && (a.FetchAdd? && s.next < s.cap ==> s.next == Mark(s))
  }

  lemma PiledInv(s: State, a: Step)
    requires PlacesOk(s) && Enabled(s, a) && MarkOk(s, a)
    ensures PiledOk(Do(s, a))
  {
    var t, w := Do(s, a), a.t;
    if a.SetBit? || a.Push? {
      assert Holds(s.threads[w], s.threads[w].eid, s.cap) && HandOk(s, s.threads[w].eid);
    }
    hide HandsOk, Mark;
    assert forall e | Below(s, e) :: Below(t, e);
    if a.Pop? && s.stack != [] {
      var n := |s.stack| - 1;
      assert s.stack == s.stack[..n] + [s.stack[n]];
    }
  }

  /** What a thread has in its hands after a step: what it had, or what the step gave it. */
  lemma HandStep(s: State, a: Step, e: nat)
    requires PlacesOk(s) && Enabled(s, a) && MarkOk(s, a)
    requires a.t in Do(s, a).threads && Holds(Do(s, a).threads[a.t], e, s.cap)
    ensures HandOk(Do(s, a), e)
    ensures OnlyBy(s, a.t, e)
  {
    var t := Do(s, a);
    if a.t in s.threads && Holds(s.threads[a.t], e, s.cap) {
      assert HandOk(s, e) && t.bits == s.bits && t.stack == s.stack && t.lost == s.lost;
    } else if a.Pop? {
      var n := |s.stack| - 1;
      assert s.stack == s.stack[..n] + [s.stack[n]] && e == s.stack[n] && e in s.stack;
      assert forall i | 0 <= i < n :: s.stack[i] != e;
    } else {
      assert (a.FetchAdd? && e == s.next && e < s.cap) || (a.ClearBit? && e in s.bits && t.bits == s.bits - {e});
    }
    forall u | u in s.threads && u != a.t ensures !Holds(s.threads[u], e, s.cap) {
      assert Holds(s.threads[u], e, s.cap) ==> HandOk(s, e);
    }
  }

  /** What the others have in their hands stays theirs. */
  lemma OtherHand(s: State, a: Step, u: nat, e: nat)
    requires PlacesOk(s) && Enabled(s, a) && MarkOk(s, a)
    requires u in s.threads && u != a.t && Holds(s.threads[u], e, s.cap)
    ensures HandOk(Do(s, a), e)
  {
    assert HandOk(s, e);
    assert a.t in s.threads ==> !Holds(s.threads[a.t], e, s.cap);
  }

  ghost predicate OthersSame(s: State, t: State, w: nat) {
    forall u | u != w :: (u in t.threads <==> u in s.threads) && (u in s.threads ==> t.threads[u] == s.threads[u])
  }

  /** Nobody but `w` has `e` in their hands. */
  ghost predicate OnlyBy(s: State, w: nat, e: nat) {
    forall u | u in s.threads && u != w :: !Holds(s.threads[u], e, s.cap)
  }

  lemma HandsInv(s: State, a: Step)
    requires PlacesOk(s) && Enabled(s, a) && MarkOk(s, a)
    ensures HandsOk(Do(s, a))
  {
    var t, w := Do(s, a), a.t;
    assert OthersSame(s, t, w);
    forall u, e | u in t.threads && Holds(t.threads[u], e, t.cap)
      ensures HandOk(t, e) && (u == w ==> OnlyBy(s, w, e))
    {
      if u == w {
        HandStep(s, a, e);
      } else {
        OtherHand(s, a, u, e);
      }
    }
    HandsApart(s, t, w);
  }

  lemma HandsApart(s: State, t: State, w: nat)
    requires HandsOk(s) && OthersSame(s, t, w) && t.cap == s.cap
    requires forall u, e | u in t.threads && Holds(t.threads[u], e, t.cap) ::
      HandOk(t, e) && (u == w ==> OnlyBy(s, w, e))
    ensures HandsOk(t)
  {
    hide HandOk;
    forall v, u, e | v in t.threads && u in t.threads && Holds(t.threads[v], e, t.cap) && Holds(t.threads[u], e, t.cap)
      ensures v == u
    {
      assert v != w ==> v in s.threads && Holds(s.threads[v], e, s.cap);
      assert u != w ==> u in s.threads && Holds(s.threads[u], e, s.cap);
      assert v == w || u == w ==> OnlyBy(s, w, e);
      assert v != w && u != w ==> v == u;
    }
  }

  lemma Cards(x: set<nat>, w: nat)
    ensures |x + {w}| == if w in x then |x| else |x| + 1
    ensures |x - {w}| == if w in x then |x| - 1 else |x|
  {
    assert w in x ==> x + {w} == x;
    assert w !in x ==> x - {w} == x;
  }

  lemma BitsDelta(s: State, a: Step)
    requires PlacesOk(s) && Enabled(s, a)
    ensures |Do(s, a).bits| == |s.bits| + One(a.SetBit?) - One(a.ClearBit? && Do(s, a) != s)
  {
    if a.SetBit? {
      assert Holds(s.threads[a.t], s.threads[a.t].eid, s.cap) && HandOk(s, s.threads[a.t].eid);
      Cards(s.bits, s.threads[a.t].eid);
    } else if a.ClearBit? {
      Cards(s.bits, a.eid);
    }
  }

  /** A step owes the count what it does to the bits, until it counts. */
  lemma CountDelta(s: State, a: Step)
    requires Enabled(s, a) && !a.Grow?
    ensures var t := Do(s, a); var now, was := OwesAt(t.threads, s.cap, a.t), OwesAt(s.threads, s.cap, a.t);
      && t.cap == s.cap
      && One(now == OneUp) - One(was == OneUp) == One(a.SetBit?) - One(a.CountIn?)
      && One(now == OneDown) - One(was == OneDown) == One(a.ClearBit? && t != s) - One(a.CountOut?)
      && t.count == s.count + One(a.CountIn?) - One(a.CountOut?)
  {
  }

  lemma CountInv(s: State, a: Step)
    requires PlacesOk(s) && CountOk(s) && Enabled(s, a) && !a.Grow?
    ensures CountOk(Do(s, a))
  {
    hide Owing, PlacesOk, Do, Enabled, OwesAt;
    Ledger(s, a, OneUp);
    Ledger(s, a, OneDown);
    BitsDelta(s, a);
    CountDelta(s, a);
  }

  // ---- Growing keeps the invariant ----

  lemma {:induction false} Fewer(x: set<nat>, y: set<nat>)
    requires x <= y
    ensures |x| <= |y|
  {
    if x != {} {
      var e :| e in x;
      Fewer(x - {e}, y - {e});
    }
  }

  /** At a higher cap fewer threads have to put the counter back, and the counts are owed the same. */
  lemma OwingHigher(threads: map<nat, Thread>, low: nat, high: nat)
    requires low <= high
    ensures Owing(threads, high, StepBack) <= Owing(threads, low, StepBack)
    ensures |Owing(threads, high, StepBack)| <= |Owing(threads, low, StepBack)|
    ensures Owing(threads, high, OneUp) == Owing(threads, low, OneUp)
    ensures Owing(threads, high, OneDown) == Owing(threads, low, OneDown)
  {
    Fewer(Owing(threads, high, StepBack), Owing(threads, low, StepBack));
  }

  /** Who holds an eid at the higher cap held it before, or takes a number that was none. */
  lemma HeldOrTaken(s: State, n: nat, u: nat, e: nat)
    requires HandsOk(s) && u in s.threads && Holds(s.threads[u], e, Raised(s.cap, n))
    ensures (Holds(s.threads[u], e, s.cap) && HandOk(s, e)) || (Takes(s, n, u) && s.threads[u] == Fetched(e))
  {
  }

  lemma GrowHands(s: State, n: nat, g: State)
    requires PlacesOk(s) && CarefulTo(s, n) && g == s.(cap := Raised(s.cap, n)) && Mark(s) <= Mark(g)
    ensures PlacesOk(g)
  {
    assert Mark(g) == MarkAt(s, g.cap);
    hide Mark, MarkAt, Owing;
    assert PiledOk(g) by {
      assert forall e | Below(s, e) :: Below(g, e);
    }
    forall u, e: nat | u in g.threads && Holds(g.threads[u], e, g.cap) ensures HandOk(g, e) {
      HeldOrTaken(s, n, u, e);
    }
    forall u, v, e: nat | u in g.threads && v in g.threads && Holds(g.threads[u], e, g.cap) && Holds(g.threads[v], e,
      g.cap)
      ensures u == v
    {
      HeldOrTaken(s, n, u, e);
      HeldOrTaken(s, n, v, e);
    }
  }

  lemma GrowInv(s: State, t: nat, n: nat)
    requires Inv(s) && Enabled(s, Grow(t, n)) && CarefulTo(s, n)
    ensures Inv(Do(s, Grow(t, n)))
  {
    var g := Do(s, Grow(t, n));
    OwingHigher(s.threads, s.cap, g.cap);
    hide PlacesOk;
    GrowHands(s, n, g);
  }

  lemma StepInv(s: State, a: Step)
    requires Inv(s) && Enabled(s, a) && Careful(s, a)
    ensures Inv(Do(s, a))
  {
    hide NextOk, PlacesOk, CountOk, CarefulTo;
    if a.Grow? {
      GrowInv(s, a.t, a.cap);
    } else {
      NextInv(s, a);
      PlacesInv(s, a);
      CountInv(s, a);
    }
  }

  lemma {:induction false} RunInv(states: seq<State>, steps: seq<Step>, i: nat)
    requires CarefulRun(states, steps) && i < |states|
    ensures Inv(states[i])
  {
    if i == 0 {
      StartInv(states[0]);
    } else {
      RunInv(states, steps, i - 1);
      StepInv(states[i - 1], steps[i - 1]);
    }
  }

  // ---- What follows for callers ----

  /**
   Over every careful run: the bit of an eid about to be returned is clear, and no other thread is about to return or to
   give back the same one. So between two times an eid is handed out, its bit was cleared by a `free`.
   */
  lemma NeverTwice(states: seq<State>, steps: seq<Step>, i: nat)
    requires CarefulRun(states, steps) && i < |steps| && steps[i].SetBit?
    ensures var s, t := states[i], steps[i].t; var e := s.threads[t].eid;
      && e < s.cap && e !in s.bits
      && forall u | u in s.threads && u != t :: !Holds(s.threads[u], e, s.cap)
  {
    RunInv(states, steps, i);
    var s, t := states[i], steps[i].t;
    assert Holds(s.threads[t], s.threads[t].eid, s.cap) && HandOk(s, s.threads[t].eid);
  }

  lemma {:induction false} FreedBetween(states: seq<State>, steps: seq<Step>, i: nat, j: nat, e: nat)
    requires CarefulRun(states, steps) && i < j < |steps|
    requires steps[i].SetBit? && states[i].threads[steps[i].t].eid == e && steps[j].SetBit?
    requires states[j].threads[steps[j].t].eid == e
    ensures exists k :: i < k < j && steps[k].ClearBit? && steps[k].eid == e && e in states[k].bits
  {
    assert states[i + 1] == Do(states[i], steps[i]) && e in states[i + 1].bits;
    NeverTwice(states, steps, j);
    WhenCleared(states, steps, i + 1, j, e);
  }

  lemma {:induction false} WhenCleared(states: seq<State>, steps: seq<Step>, i: nat, j: nat, e: nat)
    requires Run(states, steps) && i <= j < |states| && e in states[i].bits && e !in states[j].bits
    ensures exists k :: i <= k < j && steps[k].ClearBit? && steps[k].eid == e && e in states[k].bits
    decreases j - i
  {
    assert states[i + 1] == Do(states[i], steps[i]);
    if e in states[i + 1].bits {
      WhenCleared(states, steps, i + 1, j, e);
    }
  }

  /**
   What the count is off by: threads that have set a bit and not counted it, or cleared one and not counted it out.
   */
  lemma CountIs(states: seq<State>, steps: seq<Step>, i: nat)
    requires CarefulRun(states, steps) && i < |states|
    ensures var s := states[i]; var up, down := |Owing(s.threads, s.cap, OneUp)|, |Owing(s.threads, s.cap, OneDown)|;
      s.count == |s.bits| + down - up && (s.count < 0 <==> |s.bits| + down < up)
  {
    RunInv(states, steps, i);
  }

  /** With no call under way, the count is the number of bits set. */
  lemma QuietCount(states: seq<State>, steps: seq<Step>, i: nat)
    requires CarefulRun(states, steps) && i < |states|
    requires forall t | t in states[i].threads :: states[i].threads[t].Returned?
    ensures states[i].count == |states[i].bits|
  {
    CountIs(states, steps, i);
    var s := states[i];
    assert Owing(s.threads, s.cap, OneUp) == {} && Owing(s.threads, s.cap, OneDown) == {};
  }

  // ---- No eid goes missing ----

  ghost predicate InHands(s: State, e: nat) {
    exists t :: t in s.threads && Holds(s.threads[t], e, s.cap)
  }

  /** Handed out, free to be popped, lost, or on its way between these with a thread. */
  ghost predicate Somewhere(s: State, e: nat) {
    e in s.bits || e in s.stack || e in s.lost || InHands(s, e)
  }

  ghost predicate Accounted(s: State) {
    Mark(s) <= s.cap && forall e: nat | e < Mark(s) :: Somewhere(s, e)
  }

  lemma MoverSomewhere(s: State, a: Step, e: nat)
    requires Enabled(s, a) && a.t in s.threads && Holds(s.threads[a.t], e, s.cap)
    ensures Somewhere(Do(s, a), e)
  {
    var t := Do(s, a);
    if a.LoadCap? || a.CountOut? {
      assert a.t in t.threads && Holds(t.threads[a.t], e, t.cap);
    } else {
      assert a.SetBit? || a.Push?;
    }
  }

  lemma PiledSomewhere(s: State, a: Step, e: nat)
    requires Enabled(s, a) && (e in s.bits || e in s.stack || e in s.lost)
    ensures Somewhere(Do(s, a), e)
  {
    var t := Do(s, a);
    if a.Pop? && s.stack != [] {
      var n := |s.stack| - 1;
      assert s.stack == s.stack[..n] + [s.stack[n]];
      assert e == s.stack[n] ==> Holds(t.threads[a.t], e, t.cap);
    } else if a.ClearBit? {
      assert e !in t.bits && e in s.bits ==> a.t in t.threads && Holds(t.threads[a.t], e, t.cap);
    }
  }

  lemma StaysSomewhere(s: State, a: Step, e: nat)
    requires Enabled(s, a) && !a.Grow? && Somewhere(s, e)
    ensures Somewhere(Do(s, a), e)
  {
    var t := Do(s, a);
    if e in s.bits || e in s.stack || e in s.lost {
      PiledSomewhere(s, a, e);
    } else {
      var u :| u in s.threads && Holds(s.threads[u], e, s.cap);
      if u == a.t {
        MoverSomewhere(s, a, e);
      } else {
        assert u in t.threads && Holds(t.threads[u], e, t.cap);
      }
    }
  }

  lemma AccountedStep(s: State, a: Step)
    requires NextOk(s) && Accounted(s) && Enabled(s, a) && !a.Grow?
    ensures Accounted(Do(s, a))
  {
    MarkMoves(s, a);
    var t := Do(s, a);
    forall e: nat | e < Mark(t) ensures Somewhere(t, e) {
      if e < Mark(s) {
        StaysSomewhere(s, a, e);
      } else {
        assert a.t in t.threads && Holds(t.threads[a.t], e, t.cap);
      }
    }
  }

  // ---- Numbers taken by growth fill the range up to the new mark ----

  ghost function Span(a: nat, b: nat): (r: set<nat>)
    ensures forall e :: e in r <==> a <= e < b
    ensures a <= b ==> |r| == b - a
    decreases b
  {
    if b <= a then {} else Span(a, b - 1) + {b - 1}
  }

  ghost function Takers(s: State, n: nat): set<nat> {
    set t | t in s.threads && Takes(s, n, t)
  }

  ghost function Numbers(s: State, ts: set<nat>): set<nat>
    requires forall t | t in ts :: t in s.threads && s.threads[t].Fetched?
  {
    set t | t in ts :: s.threads[t].eid
  }

  lemma {:induction false} AsManyNumbers(s: State, ts: set<nat>)
    requires forall t | t in ts :: t in s.threads && s.threads[t].Fetched?
    requires forall t, u | t in ts && u in ts && s.threads[t].eid == s.threads[u].eid :: t == u
    ensures |Numbers(s, ts)| == |ts|
  {
    if ts != {} {
      var t :| t in ts;
      AsManyNumbers(s, ts - {t});
      assert Numbers(s, ts) == Numbers(s, ts - {t}) + {s.threads[t].eid};
    }
  }

  /** The takers no longer have to put the counter back. */
  lemma MarkTaken(s: State, n: nat)
    requires s.cap <= n
    ensures MarkAt(s, n) == Mark(s) + |Takers(s, n)|
  {
    var high, low, ts := Owing(s.threads, n, StepBack), Owing(s.threads, s.cap, StepBack), Takers(s, n);
    assert low == high + ts && high !! ts;
  }

  lemma SameSize(x: set<nat>, y: set<nat>)
    requires x <= y && |x| >= |y|
    ensures x == y
  {
    if e :| e in y && e !in x {
      Fewer(x + {e}, y);
    }
  }

  lemma TakersFill(s: State, n: nat)
    requires s.cap < n && CarefulTo(s, n) && Mark(s) <= s.cap && Takers(s, n) != {}
    ensures Mark(s) == s.cap && MarkAt(s, n) <= n
    ensures Numbers(s, Takers(s, n)) == Span(s.cap, MarkAt(s, n))
  {
    var ts, mark := Takers(s, n), MarkAt(s, n);
    MarkTaken(s, n);
    hide Mark, MarkAt, Owing;
    assert forall t | t in ts :: Takes(s, n, t) && s.threads[t].eid < mark;
    var t :| t in ts;
    var numbers := Numbers(s, ts);
    AsManyNumbers(s, ts);
    assert numbers <= Span(s.cap, mark) && numbers <= Span(s.cap, n);
    Fewer(numbers, Span(s.cap, mark));
    Fewer(numbers, Span(s.cap, n));
    SameSize(numbers, Span(s.cap, mark));
  }

  lemma GrowKeepsSomewhere(s: State, n: nat, e: nat)
    requires Somewhere(s, e)
    ensures Somewhere(s.(cap := Raised(s.cap, n)), e)
  {
    var g := s.(cap := Raised(s.cap, n));
    if InHands(s, e) {
      var t :| t in s.threads && Holds(s.threads[t], e, s.cap);
      assert t in g.threads && Holds(g.threads[t], e, g.cap);
    }
  }

  lemma GrowAccounted(s: State, n: nat)
    requires Accounted(s) && CarefulTo(s, n)
    ensures Accounted(s.(cap := Raised(s.cap, n)))
  {
    var g, ts := s.(cap := Raised(s.cap, n)), Takers(s, n);
    if s.cap < n {
      MarkTaken(s, n);
      assert Mark(g) == MarkAt(s, n);
      hide MarkAt, Mark, CarefulTo, Somewhere;
      if ts != {} {
        TakersFill(s, n);
      }
      forall e: nat | e < Mark(g) ensures Somewhere(g, e) {
        if e < Mark(s) {
          GrowKeepsSomewhere(s, n, e);
        } else {
          assert e in Span(s.cap, Mark(g)) && e in Numbers(s, ts);
          var t :| t in ts && s.threads[t].eid == e;
          TakerHolds(s, n, t);
        }
      }
    }
  }

  lemma TakerHolds(s: State, n: nat, t: nat)
    requires Takes(s, n, t)
    ensures Somewhere(s.(cap := Raised(s.cap, n)), s.threads[t].eid)
  {
    var g := s.(cap := Raised(s.cap, n));
    assert t in g.threads && Holds(g.threads[t], s.threads[t].eid, g.cap);
  }

  /** Over every careful run: each eid below the mark has its bit set, is on the stack, lost, or in someone's hands. */
  lemma {:induction false} RunAccounted(states: seq<State>, steps: seq<Step>, i: nat)
    requires CarefulRun(states, steps) && i < |states|
    ensures Accounted(states[i])
  {
    if i == 0 {
      var s := states[0];
      assert Owing(s.threads, s.cap, StepBack) == {};
      assert forall e: nat | e < s.next :: Somewhere(s, e);
    } else {
      RunAccounted(states, steps, i - 1);
      RunInv(states, steps, i - 1);
      var s, a := states[i - 1], steps[i - 1];
      if a.Grow? {
        GrowAccounted(s, a.cap);
      } else {
        AccountedStep(s, a);
      }
    }
  }

  // ---- What a caller may rely on ----

  /** The free stack never holds more than it has room for. */
  lemma {:induction false} StackFits(states: seq<State>, steps: seq<Step>, i: nat)
    requires Run(states, steps) && i < |states|
    ensures |states[i].stack| <= states[i].room == states[0].room
  {
    if i > 0 {
      StackFits(states, steps, i - 1);
      assert states[i] == Do(states[i - 1], steps[i - 1]);
    }
  }

  ghost predicate TurnsAway(s: State, a: Step, e: nat) {
    a.Push? && Enabled(s, a) && s.threads[a.t] == ToPush(e) && |s.stack| >= s.room
  }

  /** An eid is lost only by a push onto a full stack. */
  lemma {:induction false} WhenLost(states: seq<State>, steps: seq<Step>, i: nat, e: nat)
    requires Run(states, steps) && i < |states| && e in states[i].lost && e !in states[0].lost
    ensures exists k :: 0 <= k < i && TurnsAway(states[k], steps[k], e)
  {
    var s, a := states[i - 1], steps[i - 1];
    assert states[i] == Do(s, a);
    if e in s.lost {
      WhenLost(states, steps, i - 1, e);
    } else {
      assert TurnsAway(s, a, e);
    }
  }

  /** The call of the thread that makes step `i` ends without an eid. */
  ghost predicate Refuses(states: seq<State>, steps: seq<Step>, i: nat) {
    i < |steps| < |states| && steps[i].Pop? && steps[i].t !in states[i + 1].threads
  }

  /** A call is refused only if every eid below the mark is in use, lost, or in someone's hands. */
  lemma NoneLeft(states: seq<State>, steps: seq<Step>, i: nat, e: nat)
    requires CarefulRun(states, steps) && Refuses(states, steps, i) && e < Mark(states[i])
    ensures var s := states[i]; s.stack == [] && (e in s.bits || e in s.lost || InHands(s, e))
  {
    RunAccounted(states, steps, i);
    assert Somewhere(states[i], e);
    assert states[i + 1] == Do(states[i], steps[i]);
  }

  lemma MarkStep(s: State, a: Step)
    requires Enabled(s, a)
    ensures Mark(s) <= Mark(Do(s, a))
  {
    if a.Grow? {
      OwingHigher(s.threads, s.cap, Raised(s.cap, a.cap));
    } else {
      MarkMoves(s, a);
    }
  }

  lemma {:induction false} MarkClimbs(states: seq<State>, steps: seq<Step>, i: nat, j: nat)
    requires CarefulRun(states, steps) && i <= j < |states|
    ensures Mark(states[i]) <= Mark(states[j])
    decreases j
  {
    if i < j {
      hide Mark, Enabled, Do, Start, Careful;
      MarkClimbs(states, steps, i, j - 1);
      MarkStep(states[j - 1], steps[j - 1]);
    }
  }

  /**
   A call that went over the cap `c` and then finds the stack empty is refused. Then at most one of the eids below `c`
   is neither in use, nor lost, nor in someone's hands.
   */
  lemma Refused(states: seq<State>, steps: seq<Step>, j: nat, i: nat, e: nat)
    requires CarefulRun(states, steps) && j < i < |steps| && steps[j].LoadCap? && steps[i] == Pop(steps[j].t)
    requires states[j + 1].threads[steps[j].t].Over? && Refuses(states, steps, i) && e + 1 < states[j].cap
    ensures var s := states[i]; e in s.bits || e in s.lost || InHands(s, e)
  {
    RunInv(states, steps, j);
    assert steps[j].t in Owing(states[j].threads, states[j].cap, StepBack);
    MarkClimbs(states, steps, j, i);
    NoneLeft(states, steps, i, e);
  }

  /**
   One may be left: the cap grows by one while a thread is about to put the counter back, and the next call gets a
   number
   past the new cap and is refused, although nobody has the new eid.
   */
  lemma OneLeftOver(room: nat) returns (states: seq<State>, steps: seq<Step>)
    ensures CarefulRun(states, steps) && |steps| == 7 && steps[4] == LoadCap(2) && steps[6] == Pop(2)
    ensures states[5].threads[2].Over? && Refuses(states, steps, 6) && states[4].cap == 2
    ensures var s := states[6]; 1 !in s.bits && 1 !in s.lost && !InHands(s, 1)
  {
    states, steps := OverAndGrown(room);
    var s := states[3];
    SecondCall(s);
    hide CarefulRun, Do, Enabled;
    states, steps, s := RunOn(states, steps, FetchAdd(2));
    states, steps, s := RunOn(states, steps, LoadCap(2));
    states, steps, s := RunOn(states, steps, PutBack(2));
    states, steps, s := RunOn(states, steps, Pop(2));
  }

  /** In a full set of one, a thread has gone over, and the cap grows to two. */
  lemma OverAndGrown(room: nat) returns (states: seq<State>, steps: seq<Step>)
    ensures CarefulRun(states, steps) && |states| == 4 && |steps| == 3
    ensures states[3] == State(2, room, 2, {0}, [], 1, map[1 := Over], {})
  {
    var s := State(1, room, 1, {0}, [], 1, map[], {});
    states, steps := [s], [];
    FullStart(s);
    assert Enabled(s, FetchAdd(1)) && Do(s, FetchAdd(1)) == s.(next := 2, threads := map[1 := Fetched(1)]);
    var s1 := s.(next := 2, threads := map[1 := Fetched(1)]);
    assert Enabled(s1, LoadCap(1)) && Do(s1, LoadCap(1)) == s1.(threads := map[1 := Over]);
    GrowsByOne(s1.(threads := map[1 := Over]));
    hide Do, Enabled, Start;
    states, steps, s := RunOn(states, steps, FetchAdd(1));
    hide CarefulRun;
    states, steps, s := RunOn(states, steps, LoadCap(1));
    states, steps, s := RunOn(states, steps, Grow(3, 2));
  }

  lemma RunOn(states: seq<State>, steps: seq<Step>, a: Step)
    returns (states': seq<State>, steps': seq<Step>, t: State)
    requires |states| == |steps| + 1 && CarefulRun(states, steps)
    requires Enabled(states[|steps|], a) && Careful(states[|steps|], a)
    ensures t == Do(states[|steps|], a) && states' == states + [t] && steps' == steps + [a]
    ensures CarefulRun(states', steps')
  {
    hide Do, Enabled, Careful, Start;
    t := Do(states[|steps|], a);
    states', steps' := states + [t], steps + [a];
  }

  lemma SecondCall(s: State)
    requires s.cap == 2 && s.next == 2 && s.threads == map[1 := Over] && s.stack == []
    ensures Enabled(s, FetchAdd(2))
    ensures var t := Do(s, FetchAdd(2));
      Enabled(t, LoadCap(2)) && t.cap == 2 && var u := Do(t, LoadCap(2));
      Enabled(u, PutBack(2)) && u.threads[2].Over? && var v := Do(u, PutBack(2));
      && v.threads == map[1 := Over, 2 := AtStack] && v.bits == s.bits && v.lost == s.lost && v.stack == []
        && v.cap == 2
      && Enabled(v, Pop(2)) && 2 !in Do(v, Pop(2)).threads && !InHands(v, 1)
  {
  }

  lemma FullStart(s: State)
    requires s == State(1, s.room, 1, {0}, [], 1, map[], {})
    ensures Start(s)
  {
    assert Owing(s.threads, s.cap, StepBack) == {};
  }

  lemma GrowsByOne(s: State)
    requires s.cap == 1 && s.next == 2 && s.threads == map[1 := Over]
    ensures Enabled(s, Grow(3, 2)) && Careful(s, Grow(3, 2)) && Do(s, Grow(3, 2)) == s.(cap := 2)
  {
    assert Owing(s.threads, 2, StepBack) == {1};
  }

  /** A thread that goes over finds the counter at the cap, as long as the cap has not grown. */
  ghost predicate FullIfOver(s: State) {
    (exists t :: t in s.threads && (Owes(s.threads[t], s.cap) == StepBack || s.threads[t].AtStack?)) ==>
      Mark(s) == s.cap
  }

  lemma FullStep(s: State, a: Step)
    requires NextOk(s) && Accounted(s) && FullIfOver(s) && Enabled(s, a) && !a.Grow?
    ensures FullIfOver(Do(s, a))
  {
    MarkMoves(s, a);
    AccountedStep(s, a);
    var t := Do(s, a);
    forall u | u in t.threads && (Owes(t.threads[u], t.cap) == StepBack || t.threads[u].AtStack?)
      ensures Mark(t) == t.cap
    {
      if v :| v in Owing(s.threads, s.cap, StepBack) {
        assert Owes(s.threads[v], s.cap) == StepBack;
      } else {
        assert Owing(s.threads, s.cap, StepBack) == {};
        assert u != a.t ==> u in s.threads && s.threads[u] == t.threads[u];
      }
    }
  }

  lemma {:induction false} RunFull(states: seq<State>, steps: seq<Step>, i: nat)
    requires CarefulRun(states, steps) && i < |states| && forall k | 0 <= k < i :: !steps[k].Grow?
    ensures FullIfOver(states[i])
  {
    if i > 0 {
      RunFull(states, steps, i - 1);
      RunInv(states, steps, i - 1);
      RunAccounted(states, steps, i - 1);
      FullStep(states[i - 1], steps[i - 1]);
    }
  }

  /** While the cap has not grown, a call is refused only if no eid below the cap is left. */
  lemma RefusedWhenFull(states: seq<State>, steps: seq<Step>, i: nat, e: nat)
    requires CarefulRun(states, steps) && i < |steps| && forall k | 0 <= k < i :: !steps[k].Grow?
    requires Refuses(states, steps, i) && e < states[i].cap
    ensures var s := states[i]; e in s.bits || e in s.lost || InHands(s, e)
  {
    RunFull(states, steps, i);
    assert states[i].threads[steps[i].t].AtStack?;
    NoneLeft(states, steps, i, e);
  }

  ghost function Elems(q: seq<nat>): set<nat> {
    set x | x in q
  }

  lemma {:induction false} DistinctSize(q: seq<nat>)
    requires forall i, j | 0 <= i < j < |q| :: q[i] != q[j]
    ensures |Elems(q)| == |q|
  {
    if q != [] {
      var n := |q| - 1;
      DistinctSize(q[..n]);
      assert q == q[..n] + [q[n]];
      assert Elems(q) == Elems(q[..n]) + {q[n]};
    }
  }

  /** A stack with room for every eid never turns one away. */
  lemma PushFits(s: State, a: Step)
    requires Inv(s) && Enabled(s, a) && a.Push? && s.cap <= s.room
    ensures |s.stack| < s.room
  {
    var e := s.threads[a.t].eid;
    assert Holds(s.threads[a.t], e, s.cap) && HandOk(s, e);
    hide NextOk, CountOk, HandsOk, Mark;
    DistinctSize(s.stack);
    var all := Elems(s.stack);
    assert all + {e} <= Span(0, s.cap);
    Fewer(all + {e}, Span(0, s.cap));
  }

  lemma {:induction false} LostKept(states: seq<State>, steps: seq<Step>, i: nat)
    requires CarefulRun(states, steps) && i < |states| && states[i].cap <= states[i].room
    ensures states[i].lost == states[0].lost
  {
    if i > 0 {
      var s, a := states[i - 1], steps[i - 1];
      assert states[i] == Do(s, a) && s.cap <= s.room;
      LostKept(states, steps, i - 1);
      if a.Push? {
        RunInv(states, steps, i - 1);
        PushFits(s, a);
      }
    }
  }

  /**
   With room for every eid and no call under way, nothing has leaked: each number the counter has passed is in use or on
   the stack, but for those that were lost from the start.
   */
  lemma NoneLeaks(states: seq<State>, steps: seq<Step>, i: nat, e: nat)
    requires CarefulRun(states, steps) && i < |states| && states[i].cap <= states[i].room && e < states[i].next
    requires forall t | t in states[i].threads :: states[i].threads[t].Returned?
    ensures (e in states[i].bits) != (e in states[i].stack) || e in states[0].lost
  {
    var s := states[i];
    RunInv(states, steps, i);
    RunAccounted(states, steps, i);
    LostKept(states, steps, i);
    assert Owing(s.threads, s.cap, StepBack) == {};
    assert Somewhere(s, e);
  }

  // ---- Every call ends, whatever the other threads do ----

  /** The steps a call may still need. */
  ghost function Rank(p: Thread): nat {
    match p
    case Fetched(_) => 6
    case Over => 5
    case AtStack => 4
    case Took(_) => 3
    case Popped(_) => 3
    case Uncounted(_) => 2
    case Returned(_) => 1
    case Cleared(_) => 2
    case ToPush(_) => 1
  }

  ghost function RankOf(s: State, t: nat): nat {
    if t in s.threads then Rank(s.threads[t]) else 0
  }

  lemma RankStep(s: State, a: Step, t: nat)
    requires Enabled(s, a) && t in s.threads
    ensures a.t == t ==> RankOf(Do(s, a), t) < RankOf(s, t)
    ensures a.t != t ==> RankOf(Do(s, a), t) == RankOf(s, t)
  {
  }

  /** The steps thread `t` makes from `i` to `j`. */
  ghost function StepsOf(steps: seq<Step>, t: nat, i: nat, j: nat): nat
    requires i <= j <= |steps|
  {
    if i == j then 0 else StepsOf(steps, t, i, j - 1) + if steps[j - 1].t == t then 1 else 0
  }

  /** A call ends within six steps of its own thread, the way it is told to the end included. */
  lemma {:induction false} CallEnds(states: seq<State>, steps: seq<Step>, t: nat, i: nat, j: nat)
    requires Run(states, steps) && i <= j < |states| && forall k | i <= k < j :: t in states[k].threads
    ensures StepsOf(steps, t, i, j) + RankOf(states[j], t) <= RankOf(states[i], t) <= 6
    decreases j
  {
    if i < j {
      CallEnds(states, steps, t, i, j - 1);
      hide Do, Enabled, Start;
      RankStep(states[j - 1], steps[j - 1], t);
    }
  }

  /** Its next step is one it can always make: nobody waits for anybody. */
  lemma NeverWaits(states: seq<State>, steps: seq<Step>, i: nat, t: nat)
    requires CarefulRun(states, steps) && i < |states| && t in states[i].threads
    ensures exists a: Step :: a.t == t && Enabled(states[i], a)
  {
    RunInv(states, steps, i);
    var s := states[i];
    var a := match s.threads[t]
      case Fetched(_) => LoadCap(t)
      case Over => PutBack(t)
      case AtStack => Pop(t)
      case Took(_) => SetBit(t)
      case Popped(_) => SetBit(t)
      case Uncounted(_) => CountIn(t)
      case Returned(_) => Forget(t)
      case Cleared(_) => CountOut(t)
      case ToPush(_) => Push(t);
    if a.PutBack? {
      assert t in Owing(s.threads, s.cap, StepBack);
    }
    assert a.t == t && Enabled(s, a);
  }

  // ---- What a free and an allocation come to ----

  ghost predicate Freeing(s: State, t: nat, e: nat) {
    t in s.threads && (s.threads[t] == Cleared(e) || s.threads[t] == ToPush(e))
  }

  lemma FreeStep(s: State, a: Step, t: nat, e: nat)
    requires Enabled(s, a) && Freeing(s, t, e)
    ensures Freeing(Do(s, a), t, e) || Pushes(s, a, t, e)
  {
  }

  /** The eid is put on top of the stack, if there is room. */
  ghost predicate Pushes(s: State, a: Step, t: nat, e: nat) {
    && a == Push(t) && Enabled(s, a) && t !in Do(s, a).threads
    && if |s.stack| < s.room then Do(s, a).stack == s.stack + [e] else Do(s, a).lost == s.lost + {e}
  }

  /** Over every run: an eid in use that is freed is out of use at once, and on the stack when the call has ended. */
  lemma {:induction false} FreedIsPushed(states: seq<State>, steps: seq<Step>, i: nat, j: nat, t: nat, e: nat)
    requires Run(states, steps) && i < j < |states| && steps[i] == ClearBit(t, e) && e in states[i].bits
    requires e < states[i].cap
    ensures e !in states[i + 1].bits
    ensures Freeing(states[j], t, e) || exists k :: i < k < j && Pushes(states[k], steps[k], t, e)
    decreases j
  {
    assert states[i + 1] == Do(states[i], steps[i]);
    assert e !in states[i + 1].bits && Freeing(states[i + 1], t, e);
    if j > i + 1 {
      FreedIsPushed(states, steps, i, j - 1, t, e);
      hide Do, Enabled, Freeing, Start, Pushes;
      if Freeing(states[j - 1], t, e) {
        FreeStep(states[j - 1], steps[j - 1], t, e);
      }
    }
  }

  /** The bit of `e` was set for this call. */
  ghost predicate SetFor(states: seq<State>, steps: seq<Step>, k: nat, t: nat, e: nat) {
    && k < |steps| < |states| && steps[k] == SetBit(t) && e !in states[k].bits && e in states[k + 1].bits
  }

  ghost predicate Returning(s: State, t: nat, e: nat) {
    t in s.threads && (s.threads[t] == Uncounted(e) || s.threads[t] == Returned(e))
  }

  lemma ReturnStep(s: State, a: Step, t: nat, e: nat)
    requires Enabled(s, a) && Returning(Do(s, a), t, e) && !Returning(s, t, e)
    ensures a == SetBit(t) && Holds(s.threads[t], e, s.cap) && e in Do(s, a).bits
  {
  }

  /** Over every careful run: the eid a call returns is one whose bit it has set itself, and which was clear before. */
  lemma {:induction false} ReturnsItsOwn(states: seq<State>, steps: seq<Step>, i: nat, t: nat, e: nat)
    requires CarefulRun(states, steps) && i < |states| && Returning(states[i], t, e)
    ensures exists k :: 0 <= k < i && SetFor(states, steps, k, t, e)
    decreases i
  {
    var k := i - 1;
    if Returning(states[k], t, e) {
      ReturnsItsOwn(states, steps, k, t, e);
    } else {
      ReturnStep(states[k], steps[k], t, e);
      NeverTwice(states, steps, k);
      assert SetFor(states, steps, k, t, e);
    }
  }

  // ---- Growing ----

  /** The same eid is in the hands of two threads. */
  ghost predicate Twice(s: State) {
    exists t, u, e :: t in s.threads && u in s.threads && t != u && Has(s.threads[t], e) && Has(s.threads[u], e)
  }

  /** By steps of any threads, no further careless growth among them. */
  ghost predicate Leads(s: State, t: State) {
    exists states, steps :: Path(states, steps) && states[0] == s && states[|steps|] == t
      && forall i | 0 <= i < |steps| :: Careful(states[i], steps[i])
  }

  lemma LeadsOn(s: State, t: State, a: Step)
    requires Leads(s, t) && Enabled(t, a) && Careful(t, a)
    ensures Leads(s, Do(t, a))
  {
    hide Careful, Do, Enabled;
    var states, steps :| Path(states, steps) && states[0] == s && states[|steps|] == t
      && forall i | 0 <= i < |steps| :: Careful(states[i], steps[i]);
    var states', steps' := states + [Do(t, a)], steps + [a];
    assert Path(states', steps') && states'[0] == s && states'[|steps'|] == Do(t, a);
    assert forall i | 0 <= i < |steps'| :: Careful(states'[i], steps'[i]);
  }

  lemma LeadsHere(s: State)
    ensures Leads(s, s)
  {
    var states, steps: seq<Step> := [s], [];
    assert Path(states, steps) && states[0] == s && states[|steps|] == s;
  }

  lemma {:induction false} PathInv(states: seq<State>, steps: seq<Step>, i: nat)
    requires Path(states, steps) && Inv(states[0]) && i < |states|
    requires forall j | 0 <= j < |steps| :: Careful(states[j], steps[j])
    ensures Inv(states[i])
  {
    if i > 0 {
      PathInv(states, steps, i - 1);
      StepInv(states[i - 1], steps[i - 1]);
    }
  }

  lemma NotTwice(s: State)
    requires Inv(s)
    ensures !Twice(s)
  {
    forall t, u, e | t in s.threads && u in s.threads && Has(s.threads[t], e) && Has(s.threads[u], e) ensures t == u {
      assert Holds(s.threads[t], e, s.cap) && Holds(s.threads[u], e, s.cap);
    }
  }

  /** A thread that has to put the counter back looks at the cap, if it has not yet, and does. */
  lemma SendBack(s: State, g: State, u: nat) returns (h: State)
    requires Leads(s, g) && 0 <= Mark(g) && u in Owing(g.threads, g.cap, StepBack)
    ensures Leads(s, h) && h.cap == g.cap && Mark(h) == Mark(g) && h.threads == g.threads[u := AtStack]
    ensures Owing(h.threads, g.cap, StepBack) == Owing(g.threads, g.cap, StepBack) - {u}
  {
    var g' := g;
    OwingAfter(g.threads, g.cap, u, Over, StepBack);
    if g.threads[u].Fetched? {
      LeadsOn(s, g, LoadCap(u));
      MarkMoves(g, LoadCap(u));
      g' := Do(g, LoadCap(u));
    }
    hide Leads;
    var a := PutBack(u);
    Ledger(g', a, StepBack);
    MarkMoves(g', a);
    LeadsOn(s, g', a);
    h := Do(g', a);
    assert h.threads == g.threads[u := AtStack];
    OwingAfter(g.threads, g.cap, u, AtStack, StepBack);
  }

  /** All threads that have to put the counter back do, but for those of `keep`; no other thread moves. */
  lemma {:induction false} SendAllBack(s: State, g: State, keep: set<nat>) returns (h: State)
    requires Leads(s, g) && 0 <= Mark(g)
    ensures Leads(s, h) && h.cap == g.cap && Mark(h) == Mark(g)
    ensures Owing(h.threads, g.cap, StepBack) == Owing(g.threads, g.cap, StepBack) * keep
    ensures forall t | t in g.threads && (t in keep || t !in Owing(g.threads, g.cap, StepBack)) ::
      t in h.threads && h.threads[t] == g.threads[t]
    decreases |Owing(g.threads, g.cap, StepBack)|
  {
    hide Leads, Owing, Mark;
    var owing := Owing(g.threads, g.cap, StepBack);
    if u :| u in owing && u !in keep {
      var g' := SendBack(s, g, u);
      Cards(owing, u);
      h := SendAllBack(s, g', keep);
      assert (owing - {u}) * keep == owing * keep;
    } else {
      assert owing * keep == owing;
      h := g;
    }
  }

  lemma Unused(x: set<nat>) returns (n: nat)
    ensures forall m | m in x :: m < n
  {
    n := 0;
    var rest := x;
    while rest != {}
      invariant rest <= x && forall m | m in x && m !in rest :: m < n
    {
      var m :| m in rest;
      n := if m < n then n else m + 1;
      rest := rest - {m};
    }
  }

  /** Two threads with the same number below the cap both take it. */
  lemma BothTake(s: State, h: State, t: nat, u: nat) returns (k: State)
    requires Leads(s, h) && t != u && t in h.threads && u in h.threads
    requires h.threads[t].Fetched? && h.threads[u] == h.threads[t] && h.threads[t].eid < h.cap
    ensures Leads(s, k) && Twice(k)
  {
    hide Leads;
    var e := h.threads[t].eid;
    LeadsOn(s, h, LoadCap(t));
    var h1 := Do(h, LoadCap(t));
    LeadsOn(s, h1, LoadCap(u));
    k := Do(h1, LoadCap(u));
    assert Has(k.threads[t], e) && Has(k.threads[u], e);
  }

  /** With one thread left to put the counter back and room above the mark, two threads take the same eid. */
  lemma SameTaken(s: State, h: State, t: nat) returns (k: State)
    requires Leads(s, h) && Owing(h.threads, h.cap, StepBack) == {t} && 0 <= Mark(h) && Mark(h) + 1 < h.cap
    ensures Leads(s, k) && Twice(k)
  {
    assert t in Owing(h.threads, h.cap, StepBack) && h.next == Mark(h) + 1;
    var n := Unused(h.threads.Keys);
    var u, v := n, n + 1;
    assert t in h.threads && u !in h.threads && v !in h.threads;
    LeadsOn(s, h, FetchAdd(u));
    var h1 := Do(h, FetchAdd(u));
    MarkMoves(h, FetchAdd(u));
    OwingAfter(h.threads, h.cap, u, Fetched(h.next), StepBack);
    var h2 := SendBack(s, h1, t);
    assert h2.next == h.next by {
      assert Owing(h2.threads, h2.cap, StepBack) == {};
    }
    hide Leads, Mark, Owing;
    LeadsOn(s, h2, FetchAdd(v));
    var h3 := Do(h2, FetchAdd(v));
    k := BothTake(s, h3, u, v);
  }

  /** The counter goes on until another thread has number `e`. */
  lemma {:induction false} Fetches(s: State, h: State, e: nat, t: nat) returns (k: State, u: nat)
    requires Leads(s, h) && h.next <= e && t in h.threads
    ensures Leads(s, k) && k.cap == h.cap && t in k.threads && k.threads[t] == h.threads[t]
    ensures u != t && u in k.threads && k.threads[u] == Fetched(e)
    decreases e - h.next
  {
    hide Leads;
    u := Unused(h.threads.Keys);
    LeadsOn(s, h, FetchAdd(u));
    k := Do(h, FetchAdd(u));
    if h.next < e {
      k, u := Fetches(s, k, e, t);
    }
  }

  /** A number at or above the mark that a higher cap turns into an eid is given to a second thread. */
  lemma TakenTooHigh(s: State, g: State, t: nat) returns (k: State)
    requires Leads(s, g) && t in g.threads && g.threads[t].Fetched? && 0 <= Mark(g) <= g.threads[t].eid < g.cap
    ensures Leads(s, k) && Twice(k)
  {
    var h := SendAllBack(s, g, {});
    assert h.next == Mark(h);
    hide Leads, Mark, Owing;
    var h1, u := Fetches(s, h, g.threads[t].eid, t);
    k := BothTake(s, h1, t, u);
  }

  /** Growing carelessly leads to an eid in two pairs of hands. */
  lemma CarelessGrowth(s: State, t: nat, n: nat) returns (k: State)
    requires NextOk(s) && t !in s.threads && !CarefulTo(s, n)
    ensures Leads(Do(s, Grow(t, n)), k) && Twice(k)
  {
    var g := Do(s, Grow(t, n));
    assert s.cap < n;
    assert Mark(g) == MarkAt(s, n) >= 0 by {
      OwingHigher(s.threads, s.cap, n);
    }
    LeadsHere(g);
    hide Leads;
    if u :| Takes(s, n, u) && Mark(g) <= s.threads[u].eid {
      k := TakenTooHigh(g, g, u);
    } else if u, v :| Takes(s, n, u) && Takes(s, n, v) && s.threads[u].eid == s.threads[v].eid && u != v {
      k := BothTake(g, g, u, v);
    } else {
      var u :| u in Owing(g.threads, g.cap, StepBack);
      var h := SendAllBack(g, g, {u});
      assert Owing(h.threads, h.cap, StepBack) == {u};
      k := SameTaken(g, h, u);
    }
  }

  /**
   From any state of a careful run: growing the cap keeps every eid in one pair of hands, whatever the threads do after
   it, if and only if the growth is careful.
   */
  lemma WhenGrowIsSafe(states: seq<State>, steps: seq<Step>, i: nat, t: nat, n: nat)
    requires CarefulRun(states, steps) && i < |states| && t !in states[i].threads
    ensures CarefulTo(states[i], n) <==> forall k | Leads(Do(states[i], Grow(t, n)), k) :: !Twice(k)
  {
    RunInv(states, steps, i);
    var s, a := states[i], Grow(t, n);
    var g := Do(s, a);
    if CarefulTo(s, n) {
      StepInv(s, a);
      forall k | Leads(g, k) ensures !Twice(k) {
        var states', steps' :| Path(states', steps') && states'[0] == g && states'[|steps'|] == k
          && forall j | 0 <= j < |steps'| :: Careful(states'[j], steps'[j]);
        PathInv(states', steps', |steps'|);
        NotTwice(k);
      }
    } else {
      var k := CarelessGrowth(s, t, n);
    }
  }

  /**
   While no thread is between its step of the counter and putting it back or taking the eid, any growth is careful.
   */
  lemma QuietGrowth(s: State, n: nat)
    requires forall t | t in s.threads :: !s.threads[t].Fetched? && !s.threads[t].Over?
    ensures CarefulTo(s, n)
  {
  }

  /**
   That no thread has gone over is not enough: one may have its number and not have looked at the cap. From a full set
   of any size, the second of two threads gets its number, the first one puts the counter back, the cap grows, and the
   second one and a third take the same eid.
   */
  lemma GrownBetween(c: nat, room: nat, n: nat) returns (s: State, g: State, k: State)
    requires c + 1 < n
    ensures Start(s) && s.cap == s.next == c && s.room == room && Leads(s, g) && g.cap == c && 0 !in g.threads
    ensures forall t | t in g.threads :: !g.threads[t].Over?
    ensures Leads(Do(g, Grow(0, n)), k) && Twice(k)
  {
    s := FullSet(c, room);
    LeadsHere(s);
    hide Leads;
    hide Start;
    LeadsOn(s, s, FetchAdd(1));
    var s1 := s.(next := c + 1, threads := map[1 := Fetched(c)]);
    assert Do(s, FetchAdd(1)) == s1;
    LeadsOn(s, s1, FetchAdd(2));
    var s2 := s1.(next := c + 2, threads := map[1 := Fetched(c), 2 := Fetched(c + 1)]);
    assert Do(s1, FetchAdd(2)) == s2;
    LeadsOn(s, s2, LoadCap(1));
    var s3 := s2.(threads := map[1 := Over, 2 := Fetched(c + 1)]);
    assert Do(s2, LoadCap(1)) == s3;
    LeadsOn(s, s3, PutBack(1));
    g := s3.(next := c + 1, threads := map[1 := AtStack, 2 := Fetched(c + 1)]);
    assert Do(s3, PutBack(1)) == g;
    k := SecondTakes(g, n, c + 1);
  }

  lemma FullSet(c: nat, room: nat) returns (s: State)
    ensures Start(s) && s.cap == s.next == c && s.room == room && s.threads == map[]
  {
    s := State(c, room, c, Span(0, c), [], c, map[], {});
  }

  lemma SecondTakes(g: State, n: nat, e: nat) returns (k: State)
    requires g.threads == map[1 := AtStack, 2 := Fetched(e)] && g.next == e < n && g.cap < n
    ensures Leads(Do(g, Grow(0, n)), k) && Twice(k)
  {
    var h := Do(g, Grow(0, n));
    LeadsHere(h);
    hide Leads;
    LeadsOn(h, h, FetchAdd(3));
    k := BothTake(h, Do(h, FetchAdd(3)), 2, 3);
  }

  /** The count drops below zero: an eid is freed after its bit was set and before it was counted. */
  lemma BelowZero(room: nat) returns (s: State, k: State)
    ensures Start(s) && s.cap == 1 && s.bits == {} && s.room == room && Leads(s, k) && k.count == -1
  {
    s := State(1, room, 0, {}, [], 0, map[], {});
    LeadsHere(s);
    hide Leads, Start;
    LeadsOn(s, s, FetchAdd(0));
    var s1 := s.(next := 1, threads := map[0 := Fetched(0)]);
    assert Do(s, FetchAdd(0)) == s1;
    LeadsOn(s, s1, LoadCap(0));
    var s2 := s1.(threads := map[0 := Took(0)]);
    assert Do(s1, LoadCap(0)) == s2;
    k := FreedUncounted(s, s2);
  }

  lemma FreedUncounted(s: State, h: State) returns (k: State)
    requires Leads(s, h) && h.cap == 1 && h.bits == {} && h.count == 0 && h.threads == map[0 := Took(0)]
    ensures Leads(s, k) && k.count == -1
  {
    hide Leads;
    LeadsOn(s, h, SetBit(0));
    var h1 := h.(bits := {0}, threads := map[0 := Uncounted(0)]);
    assert Do(h, SetBit(0)) == h1;
    LeadsOn(s, h1, ClearBit(1, 0));
    k := Do(h1, ClearBit(1, 0));
    LeadsOn(s, k, CountOut(1));
    k := Do(k, CountOut(1));
  }
}
