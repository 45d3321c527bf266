/**
 Reading a bucket that holds stale entries (crates/enchudb-engine/src/himo_store.rs and append_bucket.rs): by
 its stale marks, or against the column without sorting all of it.
 */
module BucketReads {
  import opened Ordering
  import opened EidSorting

  /** A column: 0 is no value, `n + 1` is value `n`. */
  type Column = seq<nat>

  predicate Holds(col: Column, e: nat, v: nat) {
    e < |col| && col[e] == v + 1
  }

  ghost function Holders(col: Column, v: nat): set<nat> {
    set e | 0 <= e < |col| && col[e] == v + 1
  }

  ghost predicate NoRepeat(s: seq<nat>) {
    forall i, j | 0 <= i < j < |s| :: s[i] != s[j]
  }

  /** Each holder once, and nothing else. */
  ghost predicate Answers(r: seq<nat>, col: Column, v: nat) {
    NoRepeat(r) && forall e :: e in r <==> Holds(col, e, v)
  }

  // ---- Stale marks ----

  /** The entries without a mark. */
  ghost function Unmarked(s: seq<nat>, marks: seq<bool>): seq<nat>
    requires |s| <= |marks|
  {
    if s == [] then []
    else Unmarked(s[..|s| - 1], marks) + if marks[|s| - 1] then [] else [s[|s| - 1]]
  }

  lemma UnmarkedNext(s: seq<nat>, marks: seq<bool>, i: nat)
    requires i < |s| <= |marks|
    ensures Unmarked(s[..i + 1], marks) == Unmarked(s[..i], marks) + if marks[i] then [] else [s[i]]
  {
    assert s[..i + 1][..i] == s[..i];
  }

  lemma {:induction false} UnmarkedBlock(s: seq<nat>, marks: seq<bool>, a: nat, b: nat)
    requires a <= b <= |s| <= |marks| && forall i | a <= i < b :: !marks[i]
    ensures Unmarked(s[..b], marks) == Unmarked(s[..a], marks) + s[a..b]
  {
    if a < b {
      UnmarkedBlock(s, marks, a, b - 1);
      UnmarkedNext(s, marks, b - 1);
      assert s[a..b] == s[a..b - 1] + [s[b - 1]];
    }
  }

  /** Copy the entries without a mark, 64 at a time; a block without marks is copied whole. */
  method CopyUnmarked(s: seq<nat>, marks: seq<bool>, out: seq<nat>) returns (r: seq<nat>)
    requires |s| <= |marks|
    ensures r == out + Unmarked(s, marks)
  {
    r := out;
    var at := 0;
    while at < |s|
      invariant at <= |s| && r == out + Unmarked(s[..at], marks)
    {
      var end := if at + 64 < |s| then at + 64 else |s|;
      if forall i | at <= i < end :: !marks[i] {
        UnmarkedBlock(s, marks, at, end);
        r := r + s[at..end];
      } else {
        for i := at to end
          invariant r == out + Unmarked(s[..i], marks)
        {
          UnmarkedNext(s, marks, i);
          if !marks[i] {
            r := r + [s[i]];
          }
        }
      }
      at := end;
    }
    assert s[..at] == s;
  }

  // ---- Ranges ----

  /** The first place at or after `from` that is not below `e`: leap 1, 2, 4, .. and then halve. */
  method GallopGe(s: seq<nat>, from: nat, e: nat) returns (k: nat)
    requires InOrder(s) && from <= |s|
    ensures from <= k <= |s|
    ensures forall i | from <= i < k :: s[i] < e
    ensures forall i | k <= i < |s| :: e <= s[i]
  {
    var lo, at, step := from, from, 1;
    while at < |s| && s[at] < e
      invariant from <= lo <= |s| && lo <= at && 0 < step && (at < |s| ==> lo <= at)
      invariant forall i | from <= i < lo :: s[i] < e
      decreases |s| - at
    {
      lo := at + 1;
      at := at + step;
      step := step * 2;
    }
    var hi := if at < |s| then at else |s|;
    k := lo;
    while k < hi
      invariant lo <= k <= hi <= |s|
      invariant forall i | from <= i < k :: s[i] < e
      invariant forall i | hi <= i < |s| :: e <= s[i]
      decreases hi - k
    {
      var mid := (k + hi) / 2;
      if s[mid] < e {
        k := mid + 1;
      } else {
        hi := mid;
      }
    }
  }

  /** The live entries of an ascending head, each once. */
  method LiveHead(col: Column, v: nat, head: seq<nat>) returns (r: seq<nat>)
    requires InOrder(head)
    ensures Ascending(r) && forall e :: e in r <==> e in head && Holds(col, e, v)
  {
    r := [];
    for i := 0 to |head|
      invariant Ascending(r) && forall e :: e in r <==> e in head[..i] && Holds(col, e, v)
    {
      var e := head[i];
      assert head[..i + 1] == head[..i] + [e];
      assert forall j | 0 <= j < |r| :: r[j] in head[..i] && r[j] <= e;
      if (r == [] || r[|r| - 1] != e) && Holds(col, e, v) {
        assert forall j | 0 <= j < |r| :: r[j] < e;
        r := r + [e];
      }
    }
    assert head[..|head|] == head;
  }

  method LiveOf(col: Column, v: nat, s: seq<nat>) returns (r: seq<nat>)
    ensures forall e :: e in r <==> e in s && Holds(col, e, v)
  {
    r := [];
    for i := 0 to |s|
      invariant forall e :: e in r <==> e in s[..i] && Holds(col, e, v)
    {
      assert s[..i + 1] == s[..i] + [s[i]];
      if Holds(col, s[i], v) {
        r := r + [s[i]];
      }
    }
    assert s[..|s|] == s;
  }

  /** Of the sorted rest, what the head does not have, each once. */
  method NotInHead(hd: seq<nat>, tl: seq<nat>) returns (r: seq<nat>)
    requires Ascending(hd) && InOrder(tl)
    ensures Ascending(r) && forall e :: e in r <==> e in tl && e !in hd
  {
    r := [];
    var at := 0;
    assert InOrder(hd);
    for i := 0 to |tl|
      invariant Ascending(r) && at <= |hd|
      invariant forall e :: e in r <==> e in tl[..i] && e !in hd
      invariant if i == 0 then at == 0 else forall j | 0 <= j < at :: hd[j] < tl[i - 1]
    {
      var e := tl[i];
      assert tl[..i + 1] == tl[..i] + [e];
      if i == 0 || tl[i - 1] != e {
        AboveSeen(tl, i, r);
        var from := at;
        at := GallopGe(hd, from, e);
        assert i > 0 ==> forall j | 0 <= j < from :: hd[j] < e;
        if at == |hd| || hd[at] != e {
          assert forall j | 0 <= j < |hd| :: hd[j] != e;
          r := r + [e];
        } else {
          assert hd[at] in hd;
        }
      } else {
        assert tl[..i][i - 1] == e;
      }
    }
    assert tl[..|tl|] == tl;
  }

  lemma AboveSeen(tl: seq<nat>, i: nat, r: seq<nat>)
    requires i < |tl| && InOrder(tl) && (i > 0 ==> tl[i - 1] != tl[i]) && forall e | e in r :: e in tl[..i]
    ensures forall j | 0 <= j < |r| :: r[j] < tl[i]
  {
    forall j | 0 <= j < |r| ensures r[j] < tl[i] {
      assert r[j] in r;
      var k :| 0 <= k < i && tl[k] == r[j];
    }
  }

  /**
   Add each entity that holds `v` now to `out`, once: those of the ascending head of the bucket in order,
   then the others in order. Only the rest after the head is sorted.
   */
  method PushLiveOnce(col: Column, v: nat, eids: seq<nat>, out: seq<nat>) returns (r: seq<nat>, ghost mid: nat)
    ensures |out| <= mid <= |r| && r[..|out|] == out
    ensures Ascending(r[|out|..mid]) && Ascending(r[mid..]) && NoRepeat(r[|out|..])
    ensures forall e :: e in r[|out|..] <==> e in eids && Holds(col, e, v)
  {
    var head := SortedPrefixLen(eids);
    var hd := LiveHead(col, v, eids[..head]);
    mid := |out| + |hd|;
    var rest := LiveOf(col, v, eids[head..]);
    assert eids == eids[..head] + eids[head..];
    var tl: seq<nat> := [];
    if rest != [] {
      var sorted := StdSort(rest);
      SameMembers(sorted, rest);
      tl := NotInHead(hd, sorted);
    }
    r := out + hd + tl;
    Parted(out, hd, tl, r);
    assert forall e :: e in hd + tl <==> e in eids && Holds(col, e, v);
  }

  lemma SameMembers(r: seq<nat>, s: seq<nat>)
    requires multiset(r) == multiset(s)
    ensures forall e :: e in r <==> e in s
  {
    forall e ensures e in r <==> e in s {
      assert e in multiset(r) <==> e in multiset(s);
    }
  }

  lemma Parted(out: seq<nat>, hd: seq<nat>, tl: seq<nat>, r: seq<nat>)
    requires r == out + hd + tl && Ascending(hd) && Ascending(tl) && forall e | e in tl :: e !in hd
    ensures r[..|out|] == out && r[|out|..|out| + |hd|] == hd && r[|out| + |hd|..] == tl && r[|out|..] == hd + tl
    ensures NoRepeat(hd + tl)
  {
    assert forall j | 0 <= j < |tl| :: tl[j] in tl;
  }
}
