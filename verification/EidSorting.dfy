/**
 How reads and compaction put eids in order (crates/enchudb-engine/src/append_bucket.rs): a radix sort with a
 digit width that depends on the data, and a merge that leaves the ascending head of a bucket where it is.
 */
module EidSorting {
  import opened Ordering

  const RADIX_MIN: nat := 512
  const DIGIT: nat := 11
  const BLOCK: nat := 256

  ghost predicate InOrder(s: seq<nat>) {
    forall i, j | 0 <= i < j < |s| :: s[i] <= s[j]
  }

  ghost predicate SortOf(r: seq<nat>, s: seq<nat>) {
    InOrder(r) && multiset(r) == multiset(s)
  }

  /** `is_sorted`: each element is at most the next. */
  method IsSorted(s: seq<nat>) returns (ok: bool)
    ensures ok <==> InOrder(s)
  {
    for i := 0 to |s|
      invariant forall p, q | 0 <= p < q < i :: s[p] <= s[q]
    {
      if i > 0 && s[i - 1] > s[i] {
        return false;
      }
    }
    return true;
  }

  /** The length of the longest ascending head. */
  method SortedPrefixLen(s: seq<nat>) returns (k: nat)
    ensures k <= |s| && InOrder(s[..k]) && (k < |s| ==> 0 < k && s[k - 1] > s[k])
  {
    var all := IsSorted(s);
    if all {
      assert s[..|s|] == s;
      return |s|;
    }
    var at := 0;
    while at + BLOCK < |s|
      invariant at < |s| && InOrder(s[..at + 1])
    {
      var block := IsSorted(s[at..at + BLOCK + 1]);
      if !block {
        break;
      }
      HeadGrows(s, at, at + BLOCK);
      at := at + BLOCK;
    }
    k := at + 1;
    while k < |s| && s[k - 1] <= s[k]
      invariant at < k <= |s| && InOrder(s[..k])
    {
      k := k + 1;
    }
  }

  lemma HeadGrows(s: seq<nat>, a: nat, b: nat)
    requires a <= b < |s| && InOrder(s[..a + 1]) && InOrder(s[a..b + 1])
    ensures InOrder(s[..b + 1])
  {
    var head, block, whole := s[..a + 1], s[a..b + 1], s[..b + 1];
    forall i, j | 0 <= i < j < |whole| ensures whole[i] <= whole[j] {
      if j <= a {
        assert whole[i] == head[i] && whole[j] == head[j];
      } else {
        assert whole[j] == block[j - a];
        if i <= a {
          assert whole[i] == head[i] && head[a] == block[0];
        } else {
          assert whole[i] == block[i - a];
        }
      }
    }
  }

  ghost predicate Rises(s: seq<nat>, a: nat, b: nat)
    requires b <= |s|
  {
    forall p, q | a <= p < q < b :: s[p] <= s[q]
  }

  /** What is merged so far: the end of `v` holds the largest ones, in order. */
  ghost predicate Merged(v: seq<nat>, b: seq<nat>, i: nat, j: nat) {
    && i + j <= |v| && j <= |b|
    && Rises(v, 0, i) && Rises(b, 0, j) && Rises(v, i + j, |v|)
    && (forall p, q | 0 <= p < i && i + j <= q < |v| :: v[p] <= v[q])
    && (forall p, q | 0 <= p < j && i + j <= q < |v| :: b[p] <= v[q])
  }

  ghost function Parts(v: seq<nat>, b: seq<nat>, i: nat, j: nat): multiset<nat>
    requires i + j <= |v| && j <= |b|
  {
    multiset(v[..i]) + multiset(b[..j]) + multiset(v[i + j..])
  }

  lemma MergeHead(v: seq<nat>, b: seq<nat>, i: nat, j: nat, u: seq<nat>)
    requires Merged(v, b, i, j) && 0 < i && 0 < j && v[i - 1] > b[j - 1] && u == v[i + j - 1 := v[i - 1]]
    ensures Merged(u, b, i - 1, j) && Parts(u, b, i - 1, j) == Parts(v, b, i, j)
  {
    assert Rises(u, 0, i - 1) && Rises(u, i + j - 1, |u|);
    hide Rises;
    assert Merged(u, b, i - 1, j);
    hide Merged;
    HeadParts(v, b, i, j, u);
  }

  lemma HeadParts(v: seq<nat>, b: seq<nat>, i: nat, j: nat, u: seq<nat>)
    requires i + j <= |v| && j <= |b| && 0 < i && 0 < j && u == v[i + j - 1 := v[i - 1]]
    ensures Parts(u, b, i - 1, j) == Parts(v, b, i, j)
  {
    var a, x, c := v[..i - 1], v[i - 1], v[i + j..];
    assert v[..i] == a + [x];
    assert u[..i - 1] == a;
    assert u[i - 1 + j..] == [x] + c;
    MoveOver(a, x, multiset(b[..j]), c);
  }

  lemma MergeTail(v: seq<nat>, b: seq<nat>, i: nat, j: nat, u: seq<nat>)
    requires Merged(v, b, i, j) && 0 < j && (i == 0 || v[i - 1] <= b[j - 1]) && u == v[i + j - 1 := b[j - 1]]
    ensures Merged(u, b, i, j - 1) && Parts(u, b, i, j - 1) == Parts(v, b, i, j)
  {
    assert Rises(u, 0, i) && Rises(u, i + j - 1, |u|) && Rises(b, 0, j - 1);
    assert i > 0 ==> forall p | 0 <= p < i :: v[p] <= v[i - 1];
    assert forall p | 0 <= p < j :: b[p] <= b[j - 1];
    hide Rises;
    assert Merged(u, b, i, j - 1);
    hide Merged;
    TailParts(v, b, i, j, u);
  }

  lemma TailParts(v: seq<nat>, b: seq<nat>, i: nat, j: nat, u: seq<nat>)
    requires i + j <= |v| && j <= |b| && 0 < j && u == v[i + j - 1 := b[j - 1]]
    ensures Parts(u, b, i, j - 1) == Parts(v, b, i, j)
  {
    var a, x, c := b[..j - 1], b[j - 1], v[i + j..];
    assert b[..j] == a + [x];
    assert u[..i] == v[..i];
    assert u[i + (j - 1)..] == [x] + c;
    MoveOver(a, x, multiset(v[..i]), c);
  }

  lemma MoveOver(a: seq<nat>, x: nat, m: multiset<nat>, c: seq<nat>)
    ensures multiset(a + [x]) + m + multiset(c) == multiset(a) + m + multiset([x] + c)
    ensures m + multiset(a + [x]) + multiset(c) == m + multiset(a) + multiset([x] + c)
  {
  }

  /** Sort in place: the ascending head stays, the rest is sorted aside and merged in from the back. */
  method SortAppended(v: array<nat>)
    modifies v
    ensures SortOf(v[..], old(v[..]))
  {
    var k := SortedPrefixLen(v[..]);
    if k == v.Length {
      assert v[..][..k] == v[..];
      return;
    }
    var b := SortEids(v[..][k..]);
    hide SortOf, InOrder;
    MergeBack(v, k, b);
  }

  /** Merge the sorted rest into the ascending head, from the back, largest first. */
  method MergeBack(v: array<nat>, k: nat, b: seq<nat>)
    requires k <= v.Length && InOrder(v[..][..k]) && SortOf(b, v[..][k..])
    modifies v
    ensures SortOf(v[..], old(v[..]))
  {
    hide Merged, Parts, InOrder;
    var i, j := k, |b|;
    ghost var all := multiset(v[..]);
    StartMerge(v[..], b, k);
    while j > 0
      invariant 0 <= i && 0 <= j && i + j <= v.Length && j <= |b|
      invariant Merged(v[..], b, i, j) && Parts(v[..], b, i, j) == all
      decreases i + j
    {
      ghost var before := v[..];
      if i > 0 && v[i - 1] > b[j - 1] {
        v[i + j - 1] := v[i - 1];
        assert v[..] == before[i + j - 1 := before[i - 1]];
        MergeHead(before, b, i, j, v[..]);
        i := i - 1;
      } else {
        v[i + j - 1] := b[j - 1];
        assert v[..] == before[i + j - 1 := b[j - 1]];
        MergeTail(before, b, i, j, v[..]);
        j := j - 1;
      }
    }
    EndMerge(v[..], b, i);
  }

  lemma StartMerge(v: seq<nat>, b: seq<nat>, k: nat)
    requires k <= |v| && InOrder(v[..k]) && SortOf(b, v[k..])
    ensures |b| == |v| - k && Merged(v, b, k, |b|) && Parts(v, b, k, |b|) == multiset(v)
  {
    assert |b| == |v| - k by {
      assert |multiset(b)| == |multiset(v[k..])|;
    }
    assert Rises(v, 0, k) by {
      assert forall p | 0 <= p < k :: v[..k][p] == v[p];
    }
    assert b[..|b|] == b && v[|v|..] == [] && v == v[..k] + v[k..];
  }

  lemma EndMerge(v: seq<nat>, b: seq<nat>, i: nat)
    requires Merged(v, b, i, 0)
    ensures InOrder(v) && Parts(v, b, i, 0) == multiset(v)
  {
    assert v == v[..i] + v[i..] && b[..0] == [];
  }

  // ---- Radix sort ----

  /** The sort of the standard library. */
  method StdSort(s: seq<nat>) returns (r: seq<nat>)
    ensures SortOf(r, s)
  {
    r := [];
    for i := 0 to |s|
      invariant SortOf(r, s[..i])
    {
      var at := |r|;
      while at > 0 && r[at - 1] > s[i]
        invariant 0 <= at <= |r| && forall j | at <= j < |r| :: s[i] < r[j]
      {
        at := at - 1;
      }
      assert s[..i + 1] == s[..i] + [s[i]];
      PutIn(r, s[..i], at, s[i]);
      r := r[..at] + [s[i]] + r[at..];
    }
    assert s[..|s|] == s;
  }

  lemma PutIn(r: seq<nat>, s: seq<nat>, at: nat, x: nat)
    requires SortOf(r, s) && at <= |r| && (at > 0 ==> r[at - 1] <= x) && forall j | at <= j < |r| :: x < r[j]
    ensures SortOf(r[..at] + [x] + r[at..], s + [x])
  {
    PutInOrder(r, at, x, r[..at] + [x] + r[at..]);
    hide InOrder;
    assert r == r[..at] + r[at..];
    PutInBag(r[..at], r[at..], x);
  }

  lemma PutInBag(a: seq<nat>, b: seq<nat>, x: nat)
    ensures multiset(a + [x] + b) == multiset(a + b) + multiset{x}
  {
  }

  lemma PutInOrder(r: seq<nat>, at: nat, x: nat, q: seq<nat>)
    requires InOrder(r) && at <= |r| && (at > 0 ==> r[at - 1] <= x) && (forall j | at <= j < |r| :: x < r[j])
    requires q == r[..at] + [x] + r[at..]
    ensures InOrder(q)
  {
    assert forall i | 0 <= i < at :: q[i] == r[i] <= x;
    assert q[at] == x && forall i | at < i < |q| :: q[i] == r[i - 1];
  }

  function Pow2(n: nat): (p: nat)
    ensures p > 0
  {
    if n == 0 then 1 else 2 * Pow2(n - 1)
  }

  lemma {:induction false} Pow2Adds(a: nat, b: nat)
    ensures Pow2(a + b) == Pow2(a) * Pow2(b)
  {
    if b > 0 {
      Pow2Adds(a, b - 1);
    }
  }

  lemma {:induction false} Pow2Grows(a: nat, b: nat)
    requires a <= b
    ensures Pow2(a) <= Pow2(b)
  {
    if a < b {
      Pow2Grows(a, b - 1);
    }
  }

  /** `32 - leading_zeros`: the bits a number needs. */
  function Bits(x: nat): (n: nat)
    ensures x < Pow2(n) && (x == 0 <==> n == 0)
  {
    if x == 0 then 0 else 1 + Bits(x / 2)
  }

  function CeilDiv(a: nat, b: nat): nat
    requires b > 0
  {
    (a + b - 1) / b
  }

  /** The digits cover every bit, and none is wider than the count table allows. */
  lemma WidthFits(bits: nat)
    requires 0 < bits
    ensures var passes := CeilDiv(bits, DIGIT);
      0 < passes && 0 < CeilDiv(bits, passes) <= DIGIT && bits <= passes * CeilDiv(bits, passes)
  {
    var passes := CeilDiv(bits, DIGIT);
    var w := CeilDiv(bits, passes);
    assert bits <= DIGIT * passes;
    assert passes * w <= bits + passes - 1 < passes * (w + 1);
    if w > DIGIT {
      Multiply(DIGIT + 1, w, passes);
    }
  }

  /** One digit of `x - low`: the multiples of `unit`, modulo `base`. */
  datatype RawPlace = Place(low: nat, base: nat, unit: nat)
  type Place = p: RawPlace | p.base > 0 && p.unit > 0 witness Place(0, 1, 1)

  function Digit(k: Place, x: nat): (d: nat)
    ensures d < k.base
  {
    ((if x >= k.low then x - k.low else 0) / k.unit) % k.base
  }

  ghost function With(s: seq<nat>, k: Place, d: nat): seq<nat> {
    if s == [] then []
    else With(s[..|s| - 1], k, d) + if Digit(k, s[|s| - 1]) == d then [s[|s| - 1]] else []
  }

  /** The elements with digits below `d`, digit by digit, each in the order they came. */
  ghost function Below(s: seq<nat>, k: Place, d: nat): seq<nat> {
    if d == 0 then [] else Below(s, k, d - 1) + With(s, k, d - 1)
  }

  lemma BelowNone(s: seq<nat>, k: Place)
    ensures Below(s, k, 0) == []
  {
  }

  lemma BelowStep(s: seq<nat>, k: Place, d: nat)
    ensures Below(s, k, d + 1) == Below(s, k, d) + With(s, k, d)
  {
  }

  lemma WithNext(s: seq<nat>, k: Place, i: nat, d: nat)
    requires i < |s|
    ensures With(s[..i + 1], k, d) == With(s[..i], k, d) + if Digit(k, s[i]) == d then [s[i]] else []
  {
    assert s[..i + 1][..i] == s[..i];
  }

  lemma {:induction false} WithPrefix(s: seq<nat>, k: Place, i: nat, d: nat)
    requires i <= |s|
    ensures |With(s[..i], k, d)| <= |With(s, k, d)|
    decreases |s| - i
  {
    if i < |s| {
      WithNext(s, k, i, d);
      WithPrefix(s, k, i + 1, d);
    } else {
      assert s[..i] == s;
    }
  }

  lemma WithLast(s: seq<nat>, x: nat, k: Place, d: nat)
    ensures multiset(With(s + [x], k, d)) == multiset(With(s, k, d)) + if Digit(k, x) == d then multiset{x}
      else multiset{}
  {
    hide Digit;
    assert (s + [x])[..|s|] == s;
  }

  lemma BelowBag(s: seq<nat>, k: Place, d: nat)
    ensures multiset(Below(s, k, d + 1)) == multiset(Below(s, k, d)) + multiset(With(s, k, d))
  {
    BelowStep(s, k, d);
    hide With, Below;
  }

  lemma {:induction false} BelowNext(s: seq<nat>, x: nat, k: Place, d: nat)
    ensures multiset(Below(s + [x], k, d)) == multiset(Below(s, k, d)) + if Digit(k, x) < d then multiset{x}
      else multiset{}
  {
    hide Digit, With;
    if d > 0 {
      BelowNext(s, x, k, d - 1);
      hide Below;
      BelowBag(s, k, d - 1);
      BelowBag(s + [x], k, d - 1);
      WithLast(s, x, k, d - 1);
      var a := if Digit(k, x) < d - 1 then multiset{x} else multiset{};
      var b := if Digit(k, x) == d - 1 then multiset{x} else multiset{};
      SwapBags(multiset(Below(s, k, d - 1)), multiset(With(s, k, d - 1)), a, b);
    }
  }

  lemma SwapBags(p: multiset<nat>, q: multiset<nat>, a: multiset<nat>, b: multiset<nat>)
    ensures (p + a) + (q + b) == (p + q) + (a + b)
  {
  }

  lemma {:induction false} BelowEmpty(k: Place, d: nat)
    ensures Below([], k, d) == []
  {
    if d > 0 {
      BelowEmpty(k, d - 1);
    }
  }

  lemma {:induction false} BelowAll(s: seq<nat>, k: Place)
    ensures multiset(Below(s, k, k.base)) == multiset(s)
  {
    if s == [] {
      BelowEmpty(k, k.base);
    } else {
      var init, x := s[..|s| - 1], s[|s| - 1];
      assert s == init + [x];
      BelowAll(init, k);
      BelowNext(init, x, k, k.base);
    }
  }

  lemma BelowLength(s: seq<nat>, k: Place)
    ensures |Below(s, k, k.base)| == |s|
  {
    BelowAll(s, k);
    assert |multiset(Below(s, k, k.base))| == |multiset(s)|;
  }

  lemma {:induction false} BelowGrows(s: seq<nat>, k: Place, d: nat, e: nat)
    requires d <= e
    ensures |Below(s, k, d)| <= |Below(s, k, e)|
  {
    if d < e {
      BelowGrows(s, k, d, e - 1);
    }
  }

  /** How many of each digit there are. */
  method CountDigits(s: seq<nat>, k: Place) returns (count: array<nat>)
    ensures fresh(count) && count.Length == k.base && forall d | 0 <= d < k.base :: count[d] == |With(s, k, d)|
  {
    count := new nat[k.base](_ => 0);
    for i := 0 to |s|
      invariant forall d | 0 <= d < k.base :: count[d] == |With(s[..i], k, d)|
    {
      forall d ensures With(s[..i + 1], k, d) == With(s[..i], k, d) + if Digit(k, s[i]) == d then [s[i]] else [] {
        WithNext(s, k, i, d);
      }
      var d := Digit(k, s[i]);
      count[d] := count[d] + 1;
    }
    assert s[..|s|] == s;
  }

  /** Where each digit starts. */
  method StartDigits(s: seq<nat>, k: Place, count: array<nat>)
    requires count.Length == k.base && forall d | 0 <= d < k.base :: count[d] == |With(s, k, d)|
    modifies count
    ensures forall d | 0 <= d < k.base :: count[d] == |Below(s, k, d)|
  {
    hide Below, With;
    var at := 0;
    assert |Below(s, k, 0)| == 0 by {
      BelowNone(s, k);
    }
    for d := 0 to k.base
      invariant at == |Below(s, k, d)|
      invariant forall e | 0 <= e < d :: count[e] == |Below(s, k, e)|
      invariant forall e | d <= e < k.base :: count[e] == |With(s, k, e)|
    {
      BelowStep(s, k, d);
      var n := count[d];
      count[d] := at;
      at := at + n;
    }
  }

  /** After the first `i` elements: each digit's part of `buf` holds its elements so far. */
  ghost predicate Dealt(s: seq<nat>, k: Place, i: nat, count: seq<nat>, buf: seq<nat>) {
    i <= |s| == |buf| && |count| == k.base && forall d | 0 <= d < k.base :: DigitDealt(s, k, i, count, buf, d)
  }

  ghost predicate DigitDealt(s: seq<nat>, k: Place, i: nat, count: seq<nat>, buf: seq<nat>, d: nat)
    requires i <= |s| && d < |count|
  {
    var at := |Below(s, k, d)|;
    && count[d] == at + |With(s[..i], k, d)| <= |buf|
    && buf[at..count[d]] == With(s[..i], k, d)
  }

  lemma NoneDealt(s: seq<nat>, k: Place, count: seq<nat>, buf: seq<nat>)
    requires |s| == |buf| && |count| == k.base && forall d | 0 <= d < k.base :: count[d] == |Below(s, k, d)|
    ensures Dealt(s, k, 0, count, buf)
  {
    forall d | 0 <= d < k.base ensures DigitDealt(s, k, 0, count, buf, d) {
      BelowGrows(s, k, d, k.base);
      BelowLength(s, k);
    }
  }

  /** There is room for one more of a digit, inside its own part. */
  lemma RoomFor(s: seq<nat>, k: Place, i: nat, count: seq<nat>, buf: seq<nat>)
    requires Dealt(s, k, i, count, buf) && i < |s|
    ensures var d := Digit(k, s[i]);
      |Below(s, k, d)| <= count[d] < |Below(s, k, d + 1)| <= |buf|
  {
    hide Below, With, Digit;
    var d := Digit(k, s[i]);
    assert DigitDealt(s, k, i, count, buf, d);
    BelowStep(s, k, d);
    WithNext(s, k, i, d);
    WithPrefix(s, k, i + 1, d);
    BelowGrows(s, k, d + 1, k.base);
    BelowLength(s, k);
  }

  lemma DealOne(s: seq<nat>, k: Place, i: nat, count: seq<nat>, buf: seq<nat>)
    requires Dealt(s, k, i, count, buf) && i < |s| && count[Digit(k, s[i])] < |buf|
    ensures var d := Digit(k, s[i]);
      Dealt(s, k, i + 1, count[d := count[d] + 1], buf[count[d] := s[i]])
  {
    hide Below, With, Digit, DigitDealt;
    var d := Digit(k, s[i]);
    var count', buf' := count[d := count[d] + 1], buf[count[d] := s[i]];
    var n := i + 1;
    forall e | 0 <= e < k.base ensures DigitDealt(s, k, n, count', buf', e) {
      DealtOther(s, k, i, count, buf, e);
    }
  }

  lemma DealtOther(s: seq<nat>, k: Place, i: nat, count: seq<nat>, buf: seq<nat>, e: nat)
    requires Dealt(s, k, i, count, buf) && i < |s| && e < k.base && count[Digit(k, s[i])] < |buf|
    ensures var d := Digit(k, s[i]);
      DigitDealt(s, k, i + 1, count[d := count[d] + 1], buf[count[d] := s[i]], e)
  {
    hide Below, With, Digit;
    var d, at := Digit(k, s[i]), |Below(s, k, e)|;
    var buf' := buf[count[d] := s[i]];
    RoomFor(s, k, i, count, buf);
    assert DigitDealt(s, k, i, count, buf, e);
    WithNext(s, k, i, e);
    if e == d {
      assert buf'[at..count[d] + 1] == buf[at..count[d]] + [s[i]];
    } else {
      WithPrefix(s, k, i, e);
      BelowStep(s, k, e);
      if e < d {
        BelowGrows(s, k, e + 1, d);
      } else {
        BelowGrows(s, k, d + 1, e);
      }
      assert buf'[at..count[e]] == buf[at..count[e]];
    }
  }

  lemma {:induction false} AllDealt(s: seq<nat>, k: Place, count: seq<nat>, buf: seq<nat>, d: nat)
    requires Dealt(s, k, |s|, count, buf) && d <= k.base
    ensures |Below(s, k, d)| <= |buf| && buf[..|Below(s, k, d)|] == Below(s, k, d)
  {
    BelowGrows(s, k, d, k.base);
    BelowLength(s, k);
    if d > 0 {
      AllDealt(s, k, count, buf, d - 1);
      assert DigitDealt(s, k, |s|, count, buf, d - 1);
      assert s[..|s|] == s;
      var a, b := |Below(s, k, d - 1)|, |Below(s, k, d)|;
      assert buf[..b] == buf[..a] + buf[a..b];
    }
  }

  /** One pass: deal the elements out by a digit, keeping their order within it. */
  method DealPass(s: seq<nat>, k: Place) returns (r: seq<nat>)
    ensures r == Below(s, k, k.base)
  {
    hide Dealt, DigitDealt, Below, With, Digit;
    var count := CountDigits(s, k);
    StartDigits(s, k, count);
    var buf := new nat[|s|](_ => 0);
    NoneDealt(s, k, count[..], buf[..]);
    for i := 0 to |s|
      invariant Dealt(s, k, i, count[..], buf[..])
    {
      var d := Digit(k, s[i]);
      RoomFor(s, k, i, count[..], buf[..]);
      DealOne(s, k, i, count[..], buf[..]);
      ghost var count0, buf0 := count[..], buf[..];
      buf[count[d]] := s[i];
      count[d] := count[d] + 1;
      assert buf[..] == buf0[count0[d] := s[i]] && count[..] == count0[d := count0[d] + 1];
    }
    r := buf[..];
    AllDealt(s, k, count[..], r, k.base);
    BelowLength(s, k);
    assert r[..|s|] == r;
  }

  // ---- Why the passes sort ----

  /** Ascending in the part below `unit`. */
  ghost predicate LowOrder(s: seq<nat>, low: nat, unit: nat)
    requires unit > 0
  {
    forall i, j | 0 <= i < j < |s| :: Low(s[i], low, unit) <= Low(s[j], low, unit)
  }

  function Low(x: nat, low: nat, unit: nat): nat
    requires unit > 0
  {
    (if x >= low then x - low else 0) % unit
  }

  lemma LowSplits(x: nat, k: Place)
    ensures 0 < k.base * k.unit
    ensures Low(x, k.low, k.base * k.unit) == Digit(k, x) * k.unit + Low(x, k.low, k.unit)
  {
    Multiply(1, k.base, k.unit);
    Split(if x >= k.low then x - k.low else 0, k.unit, k.base);
  }

  lemma Split(y: nat, u: nat, b: nat)
    requires 0 < u && 0 < b && 0 < b * u
    ensures y % (b * u) == ((y / u) % b) * u + y % u
  {
    var q := y / u;
    SplitParts(y, u, b, q, y % u, q / b, q % b);
  }

  lemma SplitParts(y: nat, u: nat, b: nat, q: nat, l: nat, m: nat, d: nat)
    requires y == q * u + l && q == m * b + d && l < u && d < b && 0 < b * u
    ensures y % (b * u) == d * u + l
  {
    var n, r := b * u, d * u + l;
    assert y == m * n + r by {
      Regroup(m, b, d, u, l);
    }
    assert r < n by {
      Multiply(d + 1, b, u);
      assert (d + 1) * u == d * u + u;
    }
    Remainder(y, n, m, r);
  }

  lemma Regroup(m: nat, b: nat, d: nat, u: nat, l: nat)
    ensures (m * b + d) * u + l == m * (b * u) + (d * u + l)
  {
    assert (m * b + d) * u == m * b * u + d * u;
    assert m * b * u == m * (b * u);
  }

  lemma Multiply(a: nat, b: nat, c: nat)
    requires a <= b
    ensures a * c <= b * c
  {
    assert (b - a) * c >= 0;
  }

  lemma Remainder(y: nat, n: nat, m: nat, r: nat)
    requires y == m * n + r && r < n
    ensures y % n == r
  {
    var q := y / n;
    assert y == q * n + y % n;
    assert (m - q) * n == y % n - r;
    if m > q {
      Multiply(1, m - q, n);
    } else if m < q {
      Multiply(1, q - m, n);
    }
  }

  lemma {:induction false} WithLowOrder(s: seq<nat>, k: Place, d: nat)
    requires LowOrder(s, k.low, k.unit)
    ensures LowOrder(With(s, k, d), k.low, k.unit)
    ensures forall i | 0 <= i < |With(s, k, d)| :: Digit(k, With(s, k, d)[i]) == d && With(s, k, d)[i] in s
  {
    if s != [] {
      hide Low;
      var init, x := s[..|s| - 1], s[|s| - 1];
      WithLowOrder(init, k, d);
      var w := With(init, k, d);
      forall i | 0 <= i < |w| ensures Low(w[i], k.low, k.unit) <= Low(x, k.low, k.unit) {
        var j :| 0 <= j < |init| && init[j] == w[i];
        assert s[j] == w[i];
      }
    }
  }

  lemma {:induction false} BelowLowOrder(s: seq<nat>, k: Place, d: nat)
    requires LowOrder(s, k.low, k.unit)
    ensures 0 < k.base * k.unit && LowOrder(Below(s, k, d), k.low, k.base * k.unit)
    ensures forall i | 0 <= i < |Below(s, k, d)| :: Digit(k, Below(s, k, d)[i]) < d
  {
    LowSplits(0, k);
    if d > 0 {
      hide Low, Digit;
      BelowLowOrder(s, k, d - 1);
      WithLowOrder(s, k, d - 1);
      var b, w := Below(s, k, d - 1), With(s, k, d - 1);
      forall x, y | x in b + w && y in w && (x in b || Low(x, k.low, k.unit) <= Low(y, k.low, k.unit))
        && (x in b ==> Digit(k, x) < d - 1) && (x !in b ==> x in w)
        ensures Low(x, k.low, k.base * k.unit) <= Low(y, k.low, k.base * k.unit)
      {
        DigitFirst(k, x, y, d - 1);
      }
    }
  }

  lemma DigitFirst(k: Place, x: nat, y: nat, d: nat)
    requires Digit(k, y) == d
    requires Digit(k, x) < d || (Digit(k, x) == d && Low(x, k.low, k.unit) <= Low(y, k.low, k.unit))
    ensures 0 < k.base * k.unit && Low(x, k.low, k.base * k.unit) <= Low(y, k.low, k.base * k.unit)
  {
    LowSplits(x, k);
    LowSplits(y, k);
    if Digit(k, x) < d {
      Multiply(Digit(k, x) + 1, d, k.unit);
      assert (Digit(k, x) + 1) * k.unit == Digit(k, x) * k.unit + k.unit;
    }
  }

  lemma BelowBounded(s: seq<nat>, low: nat, unit: nat)
    requires unit > 0 && LowOrder(s, low, unit) && forall x | x in s :: low <= x < low + unit
    ensures InOrder(s)
  {
    hide Low;
    forall i, j | 0 <= i < j < |s| ensures s[i] <= s[j] {
      var x, y := s[i], s[j];
      assert x in s && y in s && Low(x, low, unit) <= Low(y, low, unit);
      LowIsAll(x, low, unit);
      LowIsAll(y, low, unit);
    }
  }

  lemma LowIsAll(x: nat, low: nat, unit: nat)
    requires low <= x < low + unit
    ensures Low(x, low, unit) == x - low
  {
  }

  method Bounds(s: seq<nat>) returns (low: nat, high: nat)
    requires s != []
    ensures low in s && high in s && forall x | x in s :: low <= x <= high
  {
    low, high := s[0], s[0];
    for i := 0 to |s|
      invariant low in s && high in s && forall j | 0 <= j < i :: low <= s[j] <= high
    {
      if s[i] < low {
        low := s[i];
      }
      if s[i] > high {
        high := s[i];
      }
    }
  }

  /** Sort eids: short lists by comparison, long ones digit by digit. */
  method SortEids(s: seq<nat>) returns (r: seq<nat>)
    ensures SortOf(r, s)
  {
    if |s| < RADIX_MIN {
      r := StdSort(s);
      return;
    }
    var low, high := Bounds(s);
    var bits := Bits(high - low);
    if bits == 0 {
      AllSame(s, low);
      return s;
    }
    WidthFits(bits);
    var passes := CeilDiv(bits, DIGIT);
    var w := CeilDiv(bits, passes);
    Pow2Grows(bits, passes * w);
    r := RadixSort(s, low, passes, w);
  }

  /** Deal by each digit of `w` bits in turn, from the lowest. A table of `Pow2(DIGIT)` counts is enough. */
  method RadixSort(s: seq<nat>, low: nat, passes: nat, w: nat) returns (r: seq<nat>)
    requires 0 < w <= DIGIT && forall x | x in s :: low <= x < low + Pow2(passes * w)
    ensures SortOf(r, s)
  {
    hide Pow2, Digit, Below, With, LowOrder, InOrder;
    r := s;
    var unit := 1;
    UnitOne(s, low);
    Pow2Grows(w, DIGIT);
    for p := 0 to passes
      invariant unit == Pow2(p * w) && LowOrder(r, low, unit) && multiset(r) == multiset(s)
    {
      var k := Place(low, Pow2(w), unit);
      assert k.base <= Pow2(DIGIT);
      BelowLowOrder(r, k, k.base);
      BelowAll(r, k);
      r := DealPass(r, k);
      NextUnit(p, w);
      unit := k.base * unit;
    }
    forall x | x in r ensures low <= x < low + unit {
      assert x in multiset(r) && x in multiset(s) && x in s;
    }
    BelowBounded(r, low, unit);
  }

  lemma NextUnit(p: nat, w: nat)
    ensures Pow2((p + 1) * w) == Pow2(w) * Pow2(p * w)
  {
    assert (p + 1) * w == p * w + w;
    Pow2Adds(p * w, w);
  }

  lemma AllSame(s: seq<nat>, x: nat)
    requires forall y | y in s :: x <= y <= x
    ensures InOrder(s)
  {
    assert forall i | 0 <= i < |s| :: s[i] in s;
  }

  lemma UnitOne(s: seq<nat>, low: nat)
    ensures LowOrder(s, low, 1) && Pow2(0) == 1
  {
  }

  /** `dedup`: of equal elements next to each other, the first. */
  method Dedup(s: seq<nat>) returns (r: seq<nat>)
    requires InOrder(s)
    ensures Ascending(r) && forall x :: x in r <==> x in s
  {
    r := [];
    for i := 0 to |s|
      invariant Ascending(r) && (forall x :: x in r <==> x in s[..i]) && (forall j | 0 <= j < |r| :: r[j] in s[..i])
      invariant i > 0 ==> r != [] && r[|r| - 1] == s[i - 1]
    {
      assert s[..i + 1] == s[..i] + [s[i]];
      if i == 0 || s[i] != s[i - 1] {
        assert forall j | 0 <= j < |r| :: r[j] <= s[i];
        r := r + [s[i]];
      }
    }
    assert s[..|s|] == s;
  }

  /** `sort_appended`, then `dedup`: the elements, each once, ascending. */
  method SortedOnce(s: seq<nat>) returns (r: seq<nat>)
    ensures Ascending(r) && forall x :: x in r <==> x in s
  {
    var a := new nat[|s|](i requires 0 <= i < |s| => s[i]);
    assert a[..] == s;
    SortAppended(a);
    forall x ensures x in a[..] <==> x in s {
      assert x in multiset(a[..]) <==> x in multiset(s);
    }
    r := Dedup(a[..]);
  }
}
