/**
 The identity map of a replica (crates/enchudb-engine/src/eid_translator.rs): which local row stands for the row
 of another peer, which key a local row answers to, and which further keys are aliases of it.
 */
module EidTranslators {
  import opened Wrappers

  /** The peer a row was made at, and its number there. */
  datatype Key = Key(peer: nat, number: nat)

  /** `key` is one of the aliases of `local`. */
  predicate IsAlias(al: map<nat, seq<Key>>, local: nat, key: Key) {
    local in al && key in al[local]
  }

  predicate IsReverse(rev: map<nat, Key>, local: nat, key: Key) {
    local in rev && rev[local] == key
  }

  /** Every forward entry is the reverse key of its local or one of its aliases, and not both. */
  ghost predicate Partition(fwd: map<Key, nat>, rev: map<nat, Key>, al: map<nat, seq<Key>>) {
    && (forall k | k in fwd :: IsReverse(rev, fwd[k], k) != IsAlias(al, fwd[k], k))
    && (forall l | l in rev :: rev[l] in fwd && fwd[rev[l]] == l)
    && (forall l, k | IsAlias(al, l, k) :: k in fwd && fwd[k] == l)
    && (forall l | l in al :: al[l] != [])
  }

  /** No two locals answer to the same key. */
  lemma ReverseIsInjective(fwd: map<Key, nat>, rev: map<nat, Key>, al: map<nat, seq<Key>>, l: nat, m: nat)
    requires Partition(fwd, rev, al) && l in rev && m in rev && rev[l] == rev[m]
    ensures l == m
  {
  }

  /** What goes to the file: the forward entries that are not aliases. */
  function Mapped(fwd: map<Key, nat>, al: map<nat, seq<Key>>): map<Key, nat> {
    map k | k in fwd && !IsAlias(al, fwd[k], k) :: fwd[k]
  }

  function Aliased(fwd: map<Key, nat>, al: map<nat, seq<Key>>): map<Key, nat> {
    map k | k in fwd && IsAlias(al, fwd[k], k) :: fwd[k]
  }

  /** The file holds exactly the reverse pairs. */
  lemma MappedIsReverse(fwd: map<Key, nat>, rev: map<nat, Key>, al: map<nat, seq<Key>>)
    requires Partition(fwd, rev, al)
    ensures forall k, l :: (k in Mapped(fwd, al) && Mapped(fwd, al)[k] == l) <==> IsReverse(rev, l, k)
  {
  }

  function Without(s: seq<Key>, k: Key): (r: seq<Key>)
    ensures forall x :: x in r <==> x in s && x != k
  {
    if s == [] then [] else (if s[0] == k then [] else [s[0]]) + Without(s[1..], k)
  }

  /** `drop_alias`: a list that becomes empty goes too. */
  function DropAlias(al: map<nat, seq<Key>>, local: nat, key: Key): (r: map<nat, seq<Key>>)
    ensures forall l, k :: IsAlias(r, l, k) <==> IsAlias(al, l, k) && !(l == local && k == key)
    ensures (forall l | l in al :: al[l] != []) ==> forall l | l in r :: r[l] != []
  {
    if local !in al then al
    else if Without(al[local], key) == [] then al - {local}
    else al[local := Without(al[local], key)]
  }

  function AddAlias(al: map<nat, seq<Key>>, local: nat, key: Key): (r: map<nat, seq<Key>>)
    ensures forall l, k :: IsAlias(r, l, k) <==> IsAlias(al, l, k) || (l == local && k == key)
    ensures (forall l | l in al :: al[l] != []) ==> forall l | l in r :: r[l] != []
  {
    var v := if local in al then al[local] else [];
    if key in v then al else al[local := v + [key]]
  }

  ghost function Lookup(m: map<Key, nat>, k: Key): Option<nat> {
    if k in m then Some(m[k]) else None
  }

  /** Keys whose entry in the file differs are among the marked ones. */
  ghost predicate Noticed(base: map<Key, nat>, now: map<Key, nat>, dirty: seq<Key>) {
    forall k | Lookup(base, k) != Lookup(now, k) :: k in dirty
  }

  class EidTranslator {
    var fwd: map<Key, nat>
    var rev: map<nat, Key>
    var al: map<nat, seq<Key>>
    var authors: set<nat>
    var dirty: seq<Key>
    ghost var base: map<Key, nat>   // what the file held when the marks were last taken

    ghost predicate Valid()
      reads this
    {
      && Partition(fwd, rev, al)
      && (forall k | k in fwd :: k.peer in authors)
      && Noticed(base, Mapped(fwd, al), dirty)
    }

    constructor ()
      ensures Valid() && fwd == map[] && rev == map[] && al == map[] && dirty == [] && base == map[]
    {
      fwd, rev, al, authors, dirty, base := map[], map[], map[], {}, [], map[];
    }

    /** The local a key has in the file, if any. */
    method MappedLocal(key: Key) returns (r: Option<nat>)
      ensures r == Lookup(Mapped(fwd, al), key)
    {
      if key !in fwd {
        return None;
      }
      var local := fwd[key];
      r := if local in al && key in al[local] then None else Some(local);
    }

    /** Make `local` answer to `key`. The key it answered to before becomes an alias. */
    method Insert(key: Key, local: nat)
      requires Valid()
      modifies this`fwd, this`rev, this`al, this`authors, this`dirty
      ensures Valid() && fwd == old(fwd)[key := local] && authors == old(authors) + {key.peer}
      ensures Inserted(old(rev), rev, old(al), al, key, local)
    {
      hide Partition, Noticed, Mapped, Inserted;
      ghost var fwd0, rev0, al0, dirty0 := fwd, rev, al, dirty;
      var displaced;
      fwd, rev, al, displaced := InsertMaps(fwd, rev, al, key, local);
      dirty := dirty + [key] + if displaced.Some? then [displaced.value] else [];
      authors := authors + {key.peer};
      InsertNoticed(base, fwd0, rev0, al0, dirty0, key, local, fwd, rev, al, dirty);
    }

    /** Make `key` an alias of `local`, whatever it was before; what `local` answers to stays. */
    method Alias(key: Key, local: nat)
      requires Valid()
      modifies this`fwd, this`rev, this`al, this`authors, this`dirty
      ensures Valid() && fwd == old(fwd)[key := local] && authors == old(authors) + {key.peer}
      ensures MadeAlias(old(rev), rev, old(al), al, key, local)
    {
      hide Partition, Noticed, Mapped, MadeAlias;
      ghost var fwd0, rev0, al0, dirty0 := fwd, rev, al, dirty;
      fwd, rev, al := AliasMaps(fwd, rev, al, key, local);
      dirty := dirty + [key];
      authors := authors + {key.peer};
      AliasNoticed(base, fwd0, rev0, al0, dirty0, key, local, fwd, rev, al);
    }

    /** Take an alias away. A key that a local answers to stays. */
    method Unalias(key: Key) returns (done: bool)
      requires Valid()
      modifies this`fwd, this`al
      ensures Valid() && done == (key in old(fwd) && !IsReverse(rev, old(fwd)[key], key))
      ensures fwd == if done then old(fwd) - {key} else old(fwd)
      ensures forall l, k :: IsAlias(al, l, k) <==> IsAlias(old(al), l, k) && !(done && k == key)
      ensures Mapped(fwd, al) == Mapped(old(fwd), old(al))
    {
      if key !in fwd {
        return false;
      }
      var was := fwd[key];
      if was in rev && rev[was] == key {
        return false;
      }
      hide DropAlias, Partition, Noticed, Mapped;
      ghost var fwd0, al0 := fwd, al;
      ReverseMoves(fwd, rev, al, key, was);
      fwd := fwd - {key};
      al := DropAlias(al, was, key);
      UnaliasKeeps(fwd0, rev, al0, key, fwd, al);
      return true;
    }

    /**
     A local is handed to another row: no key maps to it any more. Returns the keys that did, the reverse key first.
     */
    method RemoveLocal(local: nat) returns (out: seq<Key>)
      requires Valid()
      modifies this`fwd, this`rev, this`al, this`dirty
      ensures Valid() && (forall k :: k in out <==> k in old(fwd) && old(fwd)[k] == local)
      ensures fwd == (map k | k in old(fwd) && old(fwd)[k] != local :: old(fwd)[k])
      ensures rev == old(rev) - {local} && al == old(al) - {local}
      ensures local in old(rev) ==> out != [] && out[0] == old(rev)[local]
    {
      hide Partition, Noticed, Mapped;
      ghost var fwd0, rev0, al0, dirty0 := fwd, rev, al, dirty;
      fwd, rev, al, out := RemoveMaps(fwd, rev, al, local);
      dirty := dirty + out;
      RemoveNoticed(base, fwd0, rev0, al0, dirty0, local, fwd, al, out);
    }

    /**
     The local of a key; one is made if there is none and `alloc` gives one. If that one was `reused`, it was taken from
     the row that had it first.
     */
    method GetOrInsert(key: Key, alloc: Option<nat>, reused: bool) returns (r: Option<nat>)
      requires Valid()
      modifies this`fwd, this`rev, this`al, this`authors, this`dirty
      ensures Valid() && r == if key in old(fwd) then Some(old(fwd)[key]) else alloc
      ensures r.Some? <==> key in fwd
      ensures key in old(fwd) || r.None? ==> unchanged(this)
      ensures key !in old(fwd) && r.Some? ==>
        fwd == (if reused then map k | k in old(fwd) && old(fwd)[k] != r.value ::
          old(fwd)[k] else old(fwd))[key := r.value]
      ensures key !in old(fwd) && r.Some? ==>
        && Answers(old(rev), rev, old(al), al, key, r.value, reused)
        && Lookup(Mapped(fwd, al), key) == r && authors == old(authors) + {key.peer}
    {
      hide Partition, Noticed, Mapped, Inserted, Answers;
      ghost var fwd0, rev0, al0 := fwd, rev, al;
      if key in fwd {
        return Some(fwd[key]);
      }
      if alloc.Some? {
        if reused {
          var gone := RemoveLocal(alloc.value);
        }
        ghost var rev1, al1 := rev, al;
        Insert(key, alloc.value);
        MadeAnswers(fwd0, rev0, al0, rev1, al1, fwd, rev, al, key, alloc.value, reused);
      }
      r := alloc;
    }

    /** Take the marked keys, each once, to write their present entries to the log. */
    method TakeDirty() returns (keys: set<Key>)
      requires Valid()
      modifies this`dirty, this`base
      ensures Valid() && dirty == [] && keys == (set k | k in old(dirty)) && base == Mapped(fwd, al)
      ensures forall k | k !in keys :: Lookup(old(base), k) == Lookup(base, k)
    {
      hide Partition, Mapped;
      keys := set k | k in dirty;
      dirty := [];
      base := Mapped(fwd, al);
    }

    /** The keys could not be written: mark them again. `was` is what the file still holds. */
    method RestoreDirty(keys: seq<Key>, ghost was: map<Key, nat>)
      requires Valid() && forall k | Lookup(was, k) != Lookup(base, k) :: k in keys
      modifies this`dirty, this`base
      ensures Valid() && base == was
    {
      hide Partition, Mapped;
      dirty := dirty + keys;
      base := was;
    }
  }

  /** The maps after an insert, and the key `local` answered to before. */
  method InsertMaps(fwd0: map<Key, nat>, rev0: map<nat, Key>, al0: map<nat, seq<Key>>, key: Key, local: nat)
    returns (fwd: map<Key, nat>, rev: map<nat, Key>, al: map<nat, seq<Key>>, displaced: Option<Key>)
    requires Partition(fwd0, rev0, al0)
    ensures Partition(fwd, rev, al) && fwd == fwd0[key := local] && Inserted(rev0, rev, al0, al, key, local)
    ensures forall k | IsReverse(rev0, local, k) && k != key :: displaced == Some(k)
  {
    hide Partition, DropAlias, AddAlias;
    fwd, rev, al := fwd0, rev0, al0;
    ReverseMoves(fwd, rev, al, key, local);
    var had, was := key in fwd, if key in fwd then fwd[key] else 0;
    fwd := fwd[key := local];
    if had && was != local && was in rev && rev[was] == key {
      rev := rev - {was};
    }
    displaced := if local in rev && rev[local] != key then Some(rev[local]) else None;
    rev := rev[local := key];
    if had {
      al := DropAlias(DropAlias(al, was, key), local, key);
    }
    if displaced.Some? && displaced.value in fwd && fwd[displaced.value] == local {
      al := AddAlias(al, local, displaced.value);
    }
    forall l, k | l != local ensures IsReverse(rev, l, k) <==> IsReverse(rev0, l, k) && k != key {
      assert IsReverse(rev0, l, key) ==> had && l == was;
    }
    InsertKeeps(fwd0, rev0, al0, key, local, fwd, rev, al);
  }

  /** What an insert does to the reverse map and the aliases. */
  ghost predicate Inserted(rev: map<nat, Key>, rev': map<nat, Key>, al: map<nat, seq<Key>>, al': map<nat, seq<Key>>,
      key: Key, local: nat) {
    && IsReverse(rev', local, key)
    && (forall l, k | l != local :: IsReverse(rev', l, k) <==> IsReverse(rev, l, k) && k != key)
    && (forall l, k :: IsAlias(al', l, k) <==> k != key && (IsAlias(al, l, k) || (l == local && IsReverse(rev, l, k))))
    && (forall l | l in al' :: al'[l] != [])
  }

  /**
   A local made for a new key answers to it, and the key is an alias of none. A reused one has lost all the keys it had;
   the key another one answered to is now an alias. Every other local keeps its keys.
   */
  ghost predicate Answers(rev: map<nat, Key>, rev': map<nat, Key>, al: map<nat, seq<Key>>, al': map<nat, seq<Key>>,
      key: Key, local: nat, reused: bool) {
    && IsReverse(rev', local, key) && (forall l :: !IsAlias(al', l, key))
    && (forall k :: IsAlias(al', local, k) <==> !reused && (IsAlias(al, local, k) || IsReverse(rev, local, k)))
    && (forall l, k | l != local :: IsReverse(rev', l, k) <==> IsReverse(rev, l, k))
    && (forall l, k | l != local :: IsAlias(al', l, k) <==> IsAlias(al, l, k))
  }

  lemma MadeAnswers(fwd0: map<Key, nat>, rev0: map<nat, Key>, al0: map<nat, seq<Key>>, rev1: map<nat, Key>,
      al1: map<nat, seq<Key>>, fwd: map<Key, nat>, rev: map<nat, Key>, al: map<nat, seq<Key>>,
      key: Key, local: nat, reused: bool)
    requires Partition(fwd0, rev0, al0) && key !in fwd0 && key in fwd && fwd[key] == local
    requires rev1 == if reused then rev0 - {local} else rev0
    requires al1 == if reused then al0 - {local} else al0
    requires Inserted(rev1, rev, al1, al, key, local)
    ensures Answers(rev0, rev, al0, al, key, local, reused) && Lookup(Mapped(fwd, al), key) == Some(local)
  {
    ReverseMoves(fwd0, rev0, al0, key, local);
    hide Partition;
  }

  /** Where a key is the reverse key, or an alias. */
  lemma ReverseMoves(fwd: map<Key, nat>, rev: map<nat, Key>, al: map<nat, seq<Key>>, key: Key, local: nat)
    requires Partition(fwd, rev, al)
    ensures forall l | IsReverse(rev, l, key) :: key in fwd && fwd[key] == l && !IsAlias(al, l, key)
    ensures forall l | IsAlias(al, l, key) :: key in fwd && fwd[key] == l
    ensures local in rev ==> rev[local] in fwd && fwd[rev[local]] == local
    ensures forall l | l in al :: al[l] != []
  {
  }

  lemma InsertKeeps(fwd: map<Key, nat>, rev: map<nat, Key>, al: map<nat, seq<Key>>, key: Key, local: nat,
                    fwd': map<Key, nat>, rev': map<nat, Key>, al': map<nat, seq<Key>>)
    requires Partition(fwd, rev, al) && fwd' == fwd[key := local] && Inserted(rev, rev', al, al', key, local)
    ensures Partition(fwd', rev', al')
  {
    forall l | l in rev' ensures rev'[l] in fwd' && fwd'[rev'[l]] == l {
      assert IsReverse(rev', l, rev'[l]);
    }
  }

  lemma InsertNoticed(base: map<Key, nat>, fwd: map<Key, nat>, rev: map<nat, Key>, al: map<nat, seq<Key>>,
      dirty: seq<Key>, key: Key, local: nat,
                      fwd': map<Key, nat>, rev': map<nat, Key>, al': map<nat, seq<Key>>, dirty': seq<Key>)
    requires Noticed(base, Mapped(fwd, al), dirty) && fwd' == fwd[key := local]
    requires Inserted(rev, rev', al, al', key, local)
    requires forall k | k in dirty + [key] || IsReverse(rev, local, k) :: k in dirty'
    ensures Noticed(base, Mapped(fwd', al'), dirty')
  {
    forall k | Lookup(base, k) != Lookup(Mapped(fwd', al'), k) ensures k in dirty' {
      if k != key && !IsReverse(rev, local, k) {
        assert Lookup(Mapped(fwd', al'), k) == Lookup(Mapped(fwd, al), k);
      }
    }
  }

  // ---- Aliases ----

  /** What an alias does to the reverse map and the aliases. */
  ghost predicate MadeAlias(rev: map<nat, Key>, rev': map<nat, Key>, al: map<nat, seq<Key>>, al': map<nat, seq<Key>>,
      key: Key, local: nat) {
    && (forall l, k :: IsReverse(rev', l, k) <==> IsReverse(rev, l, k) && (l == local || k != key))
    && (forall l, k | k != key :: IsAlias(al', l, k) <==> IsAlias(al, l, k))
    && (forall l :: IsAlias(al', l, key) <==> l == local && !IsReverse(rev, local, key))
    && (forall l | l in al' :: al'[l] != [])
  }

  method AliasMaps(fwd0: map<Key, nat>, rev0: map<nat, Key>, al0: map<nat, seq<Key>>, key: Key, local: nat)
    returns (fwd: map<Key, nat>, rev: map<nat, Key>, al: map<nat, seq<Key>>)
    requires Partition(fwd0, rev0, al0)
    ensures Partition(fwd, rev, al) && fwd == fwd0[key := local] && MadeAlias(rev0, rev, al0, al, key, local)
  {
    hide Partition, DropAlias, AddAlias;
    fwd, rev, al := fwd0, rev0, al0;
    ReverseMoves(fwd, rev, al, key, local);
    var had, was := key in fwd, if key in fwd then fwd[key] else 0;
    fwd := fwd[key := local];
    if had && was != local {
      if was in rev && rev[was] == key {
        rev := rev - {was};
      }
      al := DropAlias(al, was, key);
    }
    if !(local in rev && rev[local] == key) {
      al := AddAlias(al, local, key);
    }
    forall l, k ensures IsReverse(rev, l, k) <==> IsReverse(rev0, l, k) && (l == local || k != key) {
      assert IsReverse(rev0, l, key) ==> had && l == was;
    }
    forall l ensures IsAlias(al, l, key) <==> l == local && !IsReverse(rev0, local, key) {
      assert IsAlias(al0, l, key) ==> had && l == was;
    }
    AliasKeeps(fwd0, rev0, al0, key, local, fwd, rev, al);
  }

  lemma AliasKeeps(fwd: map<Key, nat>, rev: map<nat, Key>, al: map<nat, seq<Key>>, key: Key, local: nat,
                   fwd': map<Key, nat>, rev': map<nat, Key>, al': map<nat, seq<Key>>)
    requires Partition(fwd, rev, al) && fwd' == fwd[key := local] && MadeAlias(rev, rev', al, al', key, local)
    ensures Partition(fwd', rev', al')
  {
    forall l | l in rev' ensures rev'[l] in fwd' && fwd'[rev'[l]] == l {
      assert IsReverse(rev', l, rev'[l]) && IsReverse(rev, l, rev'[l]);
    }
  }

  lemma AliasNoticed(base: map<Key, nat>, fwd: map<Key, nat>, rev: map<nat, Key>, al: map<nat, seq<Key>>,
      dirty: seq<Key>, key: Key, local: nat,
                     fwd': map<Key, nat>, rev': map<nat, Key>, al': map<nat, seq<Key>>)
    requires Noticed(base, Mapped(fwd, al), dirty) && fwd' == fwd[key := local]
    requires MadeAlias(rev, rev', al, al', key, local)
    ensures Noticed(base, Mapped(fwd', al'), dirty + [key])
  {
    forall k | Lookup(base, k) != Lookup(Mapped(fwd', al'), k) ensures k in dirty + [key] {
      if k != key {
        assert Lookup(Mapped(fwd', al'), k) == Lookup(Mapped(fwd, al), k);
      }
    }
  }

  lemma UnaliasKeeps(fwd: map<Key, nat>, rev: map<nat, Key>, al: map<nat, seq<Key>>, key: Key, fwd': map<Key, nat>,
      al': map<nat, seq<Key>>)
    requires Partition(fwd, rev, al) && key in fwd && !IsReverse(rev, fwd[key], key)
    requires fwd' == fwd - {key} && (forall l, k :: IsAlias(al', l, k) <==> IsAlias(al, l, k) && k != key)
    requires forall l | l in al' :: al'[l] != []
    ensures Partition(fwd', rev, al') && Mapped(fwd', al') == Mapped(fwd, al)
  {
  }

  // ---- Handing a local on ----

  method RemoveMaps(fwd0: map<Key, nat>, rev0: map<nat, Key>, al0: map<nat, seq<Key>>, local: nat)
    returns (fwd: map<Key, nat>, rev: map<nat, Key>, al: map<nat, seq<Key>>, out: seq<Key>)
    requires Partition(fwd0, rev0, al0)
    ensures Partition(fwd, rev, al) && rev == rev0 - {local} && al == al0 - {local}
    ensures fwd == (map k | k in fwd0 && fwd0[k] != local :: fwd0[k])
    ensures forall k :: k in out <==> k in fwd0 && fwd0[k] == local
    ensures local in rev0 ==> out != [] && out[0] == rev0[local]
  {
    fwd, rev, al, out := fwd0, rev0, al0, [];
    if local in rev {
      var key := rev[local];
      rev := rev - {local};
      if key in fwd && fwd[key] == local {
        fwd := fwd - {key};
      }
      out := out + [key];
    }
    var keys := if local in al then al[local] else [];
    al := al - {local};
    for i := 0 to |keys|
      invariant forall k :: k in fwd <==> k in fwd0 && !IsReverse(rev0, local, k) && k !in keys[..i]
      invariant forall k | k in fwd :: fwd[k] == fwd0[k]
      invariant forall k :: k in out <==> IsReverse(rev0, local, k) || k in keys[..i]
      invariant local in rev0 ==> out != [] && out[0] == rev0[local]
    {
      var key := keys[i];
      assert keys[..i + 1] == keys[..i] + [key] && IsAlias(al0, local, key);
      if key in fwd && fwd[key] == local {
        fwd := fwd - {key};
        out := out + [key];
      }
    }
    assert keys[..|keys|] == keys;
    forall k ensures k in out <==> k in fwd0 && fwd0[k] == local {
      assert IsAlias(al0, local, k) <==> k in keys;
    }
    RemoveKeeps(fwd0, rev0, al0, local, fwd, rev, al);
  }

  lemma RemoveKeeps(fwd: map<Key, nat>, rev: map<nat, Key>, al: map<nat, seq<Key>>, local: nat,
                    fwd': map<Key, nat>, rev': map<nat, Key>, al': map<nat, seq<Key>>)
    requires Partition(fwd, rev, al) && rev' == rev - {local} && al' == al - {local}
    requires fwd' == (map k | k in fwd && fwd[k] != local :: fwd[k])
    ensures Partition(fwd', rev', al')
  {
    assert forall l, k | l != local :: IsAlias(al', l, k) <==> IsAlias(al, l, k);
    assert forall l, k | l != local :: IsReverse(rev', l, k) <==> IsReverse(rev, l, k);
  }

  lemma RemoveNoticed(base: map<Key, nat>, fwd: map<Key, nat>, rev: map<nat, Key>, al: map<nat, seq<Key>>,
      dirty: seq<Key>, local: nat,
                      fwd': map<Key, nat>, al': map<nat, seq<Key>>, out: seq<Key>)
    requires Noticed(base, Mapped(fwd, al), dirty) && al' == al - {local}
    requires fwd' == (map k | k in fwd && fwd[k] != local :: fwd[k])
    requires forall k :: k in out <==> k in fwd && fwd[k] == local
    ensures Noticed(base, Mapped(fwd', al'), dirty + out)
  {
    forall k | Lookup(base, k) != Lookup(Mapped(fwd', al'), k) ensures k in dirty + out {
      if k !in out {
        assert Lookup(Mapped(fwd', al'), k) == Lookup(Mapped(fwd, al), k);
      }
    }
  }

  // ---- Opening again ----

  /** The first `i` pairs, as a map. */
  ghost function Upto(pairs: seq<(Key, nat)>, i: nat): map<Key, nat>
    requires i <= |pairs|
  {
    if i == 0 then map[] else Upto(pairs, i - 1)[pairs[i - 1].0 := pairs[i - 1].1]
  }

  /** The pairs of a map, each once, in any order. */
  ghost predicate Lists(pairs: seq<(Key, nat)>, m: map<Key, nat>) {
    Upto(pairs, |pairs|) == m && forall i, j | 0 <= i < j < |pairs| :: pairs[i].0 != pairs[j].0
  }

  lemma {:induction false} UptoIs(pairs: seq<(Key, nat)>, i: nat)
    requires i <= |pairs| && forall m, j | 0 <= m < j < |pairs| :: pairs[m].0 != pairs[j].0
    ensures forall j | 0 <= j < i :: pairs[j].0 in Upto(pairs, i) && Upto(pairs, i)[pairs[j].0] == pairs[j].1
    ensures forall k | k in Upto(pairs, i) :: exists j :: 0 <= j < i && pairs[j] == (k, Upto(pairs, i)[k])
    ensures forall j | i <= j < |pairs| :: pairs[j].0 !in Upto(pairs, i)
  {
    if i > 0 {
      UptoIs(pairs, i - 1);
      var m := Upto(pairs, i);
      forall k | k in m ensures exists j :: 0 <= j < i && pairs[j] == (k, m[k]) {
        if k == pairs[i - 1].0 {
          assert pairs[i - 1] == (k, m[k]);
        } else {
          var j :| 0 <= j < i - 1 && pairs[j] == (k, Upto(pairs, i - 1)[k]);
        }
      }
    }
  }

  ghost predicate Maps(m: map<Key, nat>, k: Key, l: nat) {
    k in m && m[k] == l
  }

  /** The maps hold `m`, each pair as the reverse key of its local, and no alias. */
  ghost predicate Loaded(fwd: map<Key, nat>, rev: map<nat, Key>, al: map<nat, seq<Key>>, m: map<Key, nat>) {
    && fwd == m && (forall k, l :: IsReverse(rev, l, k) <==> Maps(m, k, l)) && (forall k, l :: !IsAlias(al, l, k))
  }

  lemma LoadMore(fwd: map<Key, nat>, rev: map<nat, Key>, al: map<nat, seq<Key>>, m: map<Key, nat>, key: Key, local: nat,
                 fwd': map<Key, nat>, rev': map<nat, Key>, al': map<nat, seq<Key>>)
    requires Loaded(fwd, rev, al, m) && key !in m && (forall k | k in m :: m[k] != local)
    requires fwd' == fwd[key := local] && Inserted(rev, rev', al, al', key, local)
    ensures Loaded(fwd', rev', al', m[key := local])
  {
    forall k ensures !IsReverse(rev, local, k) {
      assert IsReverse(rev, local, k) <==> Maps(m, k, local);
    }
    forall k, l ensures IsReverse(rev', l, k) <==> Maps(m[key := local], k, l) {
      assert IsReverse(rev, l, k) <==> Maps(m, k, l);
      assert l == local ==> (IsReverse(rev', l, k) <==> k == key);
    }
  }

  /** The aliases `n` on top of the reverse pairs `m`. */
  ghost predicate Joined(fwd: map<Key, nat>, rev: map<nat, Key>, al: map<nat, seq<Key>>, m: map<Key, nat>,
      n: map<Key, nat>) {
    && fwd == m + n && (forall k, l :: IsReverse(rev, l, k) <==> Maps(m, k, l))
      && (forall k, l :: IsAlias(al, l, k) <==> Maps(n, k, l))
  }

  lemma JoinMore(fwd: map<Key, nat>, rev: map<nat, Key>, al: map<nat, seq<Key>>, m: map<Key, nat>, n: map<Key, nat>,
      key: Key, local: nat,
                 fwd': map<Key, nat>, rev': map<nat, Key>, al': map<nat, seq<Key>>)
    requires Joined(fwd, rev, al, m, n) && key !in m && key !in n
    requires fwd' == fwd[key := local] && MadeAlias(rev, rev', al, al', key, local)
    ensures Joined(fwd', rev', al', m, n[key := local])
  {
    forall k, l ensures IsReverse(rev', l, k) <==> Maps(m, k, l) {
      assert IsReverse(rev, l, k) <==> Maps(m, k, l);
    }
    assert !IsReverse(rev, local, key) by {
      assert IsReverse(rev, local, key) <==> Maps(m, key, local);
    }
    forall k, l ensures IsAlias(al', l, k) <==> Maps(n[key := local], k, l) {
      assert IsAlias(al, l, k) <==> Maps(n, k, l);
    }
    assert fwd' == m + n[key := local];
  }

  /** Put the pairs of the file back, then the aliases: the same maps as before, whatever the order. */
  method Rebuild(snap: seq<(Key, nat)>, also: seq<(Key, nat)>, ghost fwd: map<Key, nat>, ghost rev: map<nat, Key>,
      ghost al: map<nat, seq<Key>>)
    returns (t: EidTranslator)
    requires Partition(fwd, rev, al) && Lists(snap, Mapped(fwd, al)) && Lists(also, Aliased(fwd, al))
    ensures fresh(t) && t.Valid() && t.fwd == fwd && t.rev == rev
    ensures forall l, k :: IsAlias(t.al, l, k) <==> IsAlias(al, l, k)
  {
    hide Inserted, MadeAlias, Loaded, Joined, Noticed, Partition, Lists;
    ghost var m := Mapped(fwd, al);
    t := new EidTranslator();
    LoadStart();
    for i := 0 to |snap|
      invariant fresh(t) && t.Valid() && Loaded(t.fwd, t.rev, t.al, Upto(snap, i))
    {
      ghost var f, r, a := t.fwd, t.rev, t.al;
      SnapNew(fwd, rev, al, snap, i);
      t.Insert(snap[i].0, snap[i].1);
      LoadMore(f, r, a, Upto(snap, i), snap[i].0, snap[i].1, t.fwd, t.rev, t.al);
    }
    JoinStart(fwd, rev, al, snap, t.fwd, t.rev, t.al);
    for i := 0 to |also|
      invariant fresh(t) && t.Valid() && Joined(t.fwd, t.rev, t.al, m, Upto(also, i))
    {
      ghost var f, r, a := t.fwd, t.rev, t.al;
      AlsoNew(fwd, al, also, i);
      t.Alias(also[i].0, also[i].1);
      JoinMore(f, r, a, m, Upto(also, i), also[i].0, also[i].1, t.fwd, t.rev, t.al);
    }
    JoinEnd(fwd, rev, al, also, t.fwd, t.rev, t.al);
  }

  lemma LoadStart()
    ensures Loaded(map[], map[], map[], map[])
  {
  }

  lemma SnapNew(fwd: map<Key, nat>, rev: map<nat, Key>, al: map<nat, seq<Key>>, snap: seq<(Key, nat)>, i: nat)
    requires Partition(fwd, rev, al) && Lists(snap, Mapped(fwd, al)) && i < |snap|
    ensures snap[i].0 !in Upto(snap, i) && forall k | k in Upto(snap, i) :: Upto(snap, i)[k] != snap[i].1
  {
    MappedIsReverse(fwd, rev, al);
    UptoIs(snap, i);
    UptoIs(snap, |snap|);
    forall j | 0 <= j < |snap| ensures IsReverse(rev, snap[j].1, snap[j].0) {
    }
  }

  lemma AlsoNew(fwd: map<Key, nat>, al: map<nat, seq<Key>>, also: seq<(Key, nat)>, i: nat)
    requires Lists(also, Aliased(fwd, al)) && i < |also|
    ensures also[i].0 !in Upto(also, i) && also[i].0 !in Mapped(fwd, al)
  {
    UptoIs(also, i);
    UptoIs(also, |also|);
  }

  lemma JoinStart(fwd: map<Key, nat>, rev: map<nat, Key>, al: map<nat, seq<Key>>, snap: seq<(Key, nat)>,
                  f: map<Key, nat>, r: map<nat, Key>, a: map<nat, seq<Key>>)
    requires Partition(fwd, rev, al) && Lists(snap, Mapped(fwd, al)) && Loaded(f, r, a, Upto(snap, |snap|))
    ensures Joined(f, r, a, Mapped(fwd, al), map[])
  {
    assert Mapped(fwd, al) + map[] == Mapped(fwd, al);
  }

  lemma JoinEnd(fwd: map<Key, nat>, rev: map<nat, Key>, al: map<nat, seq<Key>>, also: seq<(Key, nat)>,
                f: map<Key, nat>, r: map<nat, Key>, a: map<nat, seq<Key>>)
    requires Partition(fwd, rev, al) && Lists(also, Aliased(fwd, al))
    requires Joined(f, r, a, Mapped(fwd, al), Upto(also, |also|))
    ensures f == fwd && r == rev && forall l, k :: IsAlias(a, l, k) <==> IsAlias(al, l, k)
  {
    var m, n := Mapped(fwd, al), Aliased(fwd, al);
    assert f == m + n == fwd;
    forall l, k ensures IsReverse(r, l, k) <==> IsReverse(rev, l, k) {
      MappedIsReverse(fwd, rev, al);
      assert IsReverse(r, l, k) <==> Maps(m, k, l);
    }
    assert r == rev by {
      assert forall l | l in r :: IsReverse(rev, l, r[l]);
      assert forall l | l in rev :: IsReverse(r, l, rev[l]);
    }
    forall l, k ensures IsAlias(a, l, k) <==> IsAlias(al, l, k) {
      assert IsAlias(a, l, k) <==> Maps(n, k, l);
    }
  }
}
