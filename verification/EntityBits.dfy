/** Counting and finding live eids in the bitset (crates/enchudb-engine/src/entity_set.rs), a byte at a time. */
module EntityBits {
  import opened Wrappers
  import opened EidSorting

  predicate ByteBit(b: Byte, i: nat) {
    (b / Pow2(i)) % 2 == 1
  }

  /** `count_ones`, of the lowest `n` bits. */
  function Ones(b: Byte, n: nat): nat {
    if n == 0 then 0 else Ones(b, n - 1) + if ByteBit(b, n - 1) then 1 else 0
  }

  predicate Live(bytes: seq<Byte>, e: nat) {
    e / 8 < |bytes| && ByteBit(bytes[e / 8], e % 8)
  }

  /** The live eids from `lo` to `hi`, counted one by one. */
  ghost function Count(bytes: seq<Byte>, lo: nat, hi: nat): nat {
    if hi <= lo then 0 else Count(bytes, lo, hi - 1) + if Live(bytes, hi - 1) then 1 else 0
  }

  /** The live eids from `lo` to `hi`. */
  ghost function Lives(bytes: seq<Byte>, lo: nat, hi: nat): set<nat> {
    set e: nat | lo <= e < hi && Live(bytes, e)
  }

  lemma {:induction false} CountIsSize(bytes: seq<Byte>, lo: nat, hi: nat)
    ensures Count(bytes, lo, hi) == |Lives(bytes, lo, hi)|
    decreases hi
  {
    if hi <= lo {
      assert Lives(bytes, lo, hi) == {};
    } else {
      CountIsSize(bytes, lo, hi - 1);
      assert Lives(bytes, lo, hi) == Lives(bytes, lo, hi - 1) + if Live(bytes, hi - 1) then {hi - 1} else {};
    }
  }

  lemma {:induction false} CountJoins(bytes: seq<Byte>, lo: nat, mid: nat, hi: nat)
    requires lo <= mid <= hi
    ensures Count(bytes, lo, hi) == Count(bytes, lo, mid) + Count(bytes, mid, hi)
  {
    if mid < hi {
      CountJoins(bytes, lo, mid, hi - 1);
    }
  }

  lemma {:induction false} CountByte(bytes: seq<Byte>, k: nat, i: nat)
    requires k < |bytes| && i <= 8
    ensures Count(bytes, 8 * k, 8 * k + i) == Ones(bytes[k], i)
  {
    if i > 0 {
      CountByte(bytes, k, i - 1);
      var e := 8 * k + i - 1;
      assert e / 8 == k && e % 8 == i - 1;
    }
  }

  /** A byte of zero has no live eid. */
  lemma ZeroByte(bytes: seq<Byte>, e: nat)
    requires e / 8 < |bytes| && bytes[e / 8] == 0
    ensures !Live(bytes, e)
  {
  }

  method CountBits(bytes: seq<Byte>, lo: nat, hi: nat) returns (n: nat)
    requires lo <= hi <= 8 * |bytes|
    ensures n == Count(bytes, lo, hi)
  {
    n := 0;
    for e := lo to hi
      invariant n == Count(bytes, lo, e)
    {
      if Live(bytes, e) {
        n := n + 1;
      }
    }
  }

  /** The live eids of a range: bit by bit at the ends, byte by byte between. */
  method LiveCountIn(bytes: seq<Byte>, cap: nat, lo: nat, hi0: nat) returns (n: nat)
    requires cap <= 8 * |bytes|
    ensures n == |Lives(bytes, lo, if hi0 < cap then hi0 else cap)|
  {
    var hi := if hi0 < cap then hi0 else cap;
    CountIsSize(bytes, lo, hi);
    if lo >= hi {
      return 0;
    }
    var first, last := (lo + 7) / 8, hi / 8;
    if 8 * first >= hi {
      n := CountBits(bytes, lo, hi);
      return;
    }
    n := CountBits(bytes, lo, 8 * first);
    for b := first to last
      invariant n == Count(bytes, lo, 8 * b)
    {
      CountByte(bytes, b, 8);
      CountJoins(bytes, lo, 8 * b, 8 * b + 8);
      n := n + Ones(bytes[b], 8);
    }
    var m := CountBits(bytes, 8 * last, hi);
    CountJoins(bytes, lo, 8 * last, hi);
    n := n + m;
  }

  /** The highest live eid of a range, skipping empty bytes. */
  method HighestLiveIn(bytes: seq<Byte>, cap: nat, lo: nat, hi0: nat) returns (r: Option<nat>)
    requires cap <= 8 * |bytes|
    ensures var hi := if hi0 < cap then hi0 else cap;
      match r
      case Some(e) => lo <= e < hi && Live(bytes, e) && forall f | e < f < hi :: !Live(bytes, f)
      case None => forall f | lo <= f < hi :: !Live(bytes, f)
  {
    var hi := if hi0 < cap then hi0 else cap;
    var e: nat := hi;
    while e > lo
      invariant lo <= e || hi < lo
      invariant e <= hi && forall f: nat | e <= f < hi :: !Live(bytes, f)
      decreases e
    {
      e := e - 1;
      if bytes[e / 8] == 0 {
        var first := e / 8 * 8;
        EmptyFrom(bytes, e);
        if first <= lo {
          return None;
        }
        e := first;
      } else if ByteBit(bytes[e / 8], e % 8) {
        return Some(e);
      }
    }
    return None;
  }

  lemma EmptyFrom(bytes: seq<Byte>, e: nat)
    requires e / 8 < |bytes| && bytes[e / 8] == 0
    ensures forall f | e / 8 * 8 <= f <= e :: !Live(bytes, f)
  {
    forall f | e / 8 * 8 <= f <= e ensures !Live(bytes, f) {
      assert f / 8 == e / 8;
      ZeroByte(bytes, f);
    }
  }
}
