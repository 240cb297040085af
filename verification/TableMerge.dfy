/** Copying one table into another, and merging two into a new one (lib/cfuhash.c). */
module TableMerge {
  import opened Wrappers
  import opened TableModel
  import opened TableRefinement
  import opened HashTable

  /** Puts into `dst` what `src` has for each of the keys. */
  function CopyKeys<V>(from: Config, src: Table<V>, keys: seq<Key>, into: Config, dst: Table<V>): (r: Table<V>)
    requires |src.chains| > 0 && |dst.chains| > 0
    ensures |r.chains| > 0
  {
    if |keys| == 0 then dst
    else
      var k := |keys| - 1;
      var d := CopyKeys(from, src, keys[..k], into, dst);
      match Get(from, src, keys[k])
      case None => d
      case Some(data) =>
        TableCost.ApplyBuckets(into, d, TableCost.PutOp(keys[k], data));
        Put(into, d, keys[k], data)
  }

  /** Copying all keys of a table. */
  function Copied<V>(from: Config, src: Table<V>, into: Config, dst: Table<V>): (r: Table<V>)
    requires |src.chains| > 0 && |dst.chains| > 0
    ensures |r.chains| > 0
  {
    CopyKeys(from, src, KeysOf(Flatten(src.chains)), into, dst)
  }

  function CanonSet(flags: Flags, keys: seq<Key>): set<Key> {
    set k | k in keys :: Canon(flags, k)
  }

  ghost function Restrict<V>(m: map<Key, V>, keys: set<Key>): map<Key, V> {
    map c | c in m && c in keys :: m[c]
  }

  lemma {:induction false} CopyKeysRefines<V(!new)>(from: Config, src: Table<V>, keys: seq<Key>, into: Config, dst: Table<V>)
    requires Inv(from, src) && Inv(into, dst) && from.flags.ignoreCase == into.flags.ignoreCase
    requires forall k | k in keys :: GoodKey(from.flags, k)
    ensures
      var r := CopyKeys(from, src, keys, into, dst);
      Inv(into, r) && Contents(into, r) == Contents(into, dst) + Restrict(Contents(from, src), CanonSet(from.flags, keys))
  {
    hide Inv, Contents, GoodKey, Canon, Restrict, CanonSet, Put, Get;
    InvBuckets(into, dst);
    InvBuckets(from, src);
    if |keys| == 0 {
      RestrictNothing(Contents(into, dst), Contents(from, src), from.flags, keys);
    } else {
      var k := |keys| - 1;
      CopyKeysRefines(from, src, keys[..k], into, dst);
      var d := CopyKeys(from, src, keys[..k], into, dst);
      SameCanon(from.flags, into.flags, keys[k]);
      GetRefines(from, src, keys[k]);
      CanonSetSnoc(from.flags, keys);
      var c := Canon(from.flags, keys[k]);
      RestrictSnoc(Contents(into, dst), Contents(from, src), CanonSet(from.flags, keys[..k]), c);
      if c in Contents(from, src) {
        PutRefines(into, d, keys[k], Contents(from, src)[c]);
      }
    }
  }

  lemma RestrictNothing<V>(m: map<Key, V>, s: map<Key, V>, flags: Flags, keys: seq<Key>)
    requires |keys| == 0
    ensures m + Restrict(s, CanonSet(flags, keys)) == m
  {}

  lemma RestrictSnoc<V>(m: map<Key, V>, s: map<Key, V>, keys: set<Key>, c: Key)
    ensures m + Restrict(s, keys + {c}) == if c in s then (m + Restrict(s, keys))[c := s[c]] else m + Restrict(s, keys)
  {}

  lemma InvBuckets<V(!new)>(cfg: Config, t: Table<V>)
    requires Inv(cfg, t)
    ensures |t.chains| > 0
  {}

  lemma SameCanon(a: Flags, b: Flags, k: Key)
    requires a.ignoreCase == b.ignoreCase
    ensures Canon(a, k) == Canon(b, k) && GoodKey(a, k) == GoodKey(b, k)
  {}

  lemma CanonSetSnoc(flags: Flags, keys: seq<Key>)
    requires |keys| > 0
    ensures CanonSet(flags, keys) == CanonSet(flags, keys[..|keys| - 1]) + {Canon(flags, keys[|keys| - 1])}
  {
    hide Canon;
    assert keys == keys[..|keys| - 1] + [keys[|keys| - 1]];
  }

  /** Copying a table overrides the target with it. */
  lemma CopiedRefines<V(!new)>(from: Config, src: Table<V>, into: Config, dst: Table<V>)
    requires Inv(from, src) && Inv(into, dst) && from.flags.ignoreCase == into.flags.ignoreCase
    ensures
      var r := Copied(from, src, into, dst);
      Inv(into, r) && Contents(into, r) == Contents(into, dst) + Contents(from, src)
  {
    var ps := Flatten(src.chains);
    var keys := KeysOf(ps);
    forall k | k in keys ensures GoodKey(from.flags, k) {
      var i :| 0 <= i < |keys| && keys[i] == k;
      HoldsInBucket(from, src, ps[i]);
    }
    CopyKeysRefines(from, src, keys, into, dst);
    hide Inv;
    forall c | c in Contents(from, src) ensures c in CanonSet(from.flags, keys) {
      var p := ContentsFrom(from, src, c);
      var i :| 0 <= i < |ps| && ps[i] == p;
      assert keys[i] == p.key;
    }
    assert Restrict(Contents(from, src), CanonSet(from.flags, keys)) == Contents(from, src);
  }

  /** Copies the entry of one key. */
  method CopyKey<V(!new)>(src: HashTable<V>, dst: HashTable<V>, key: Key)
    requires src.Valid() && dst.Valid() && src.Repr !! dst.Repr
    modifies dst.Repr
    ensures src.Valid() && dst.Valid() && fresh(dst.Repr - old(dst.Repr)) && src.Repr !! dst.Repr
    ensures src.Model() == old(src.Model()) && src.Repr == old(src.Repr) && |src.Model().chains| > 0 && |old(dst.Model()).chains| > 0
    ensures dst.Model() ==
      match Get(src.cfg, src.Model(), key) case None => old(dst.Model()) case Some(data) => Put(dst.cfg, old(dst.Model()), key, data)
  {
    ValidBuckets(src);
    ValidBuckets(dst);
    hide *;
    var data := src.GetData(key);
    if data.Some? {
      var _, _ := dst.PutData(key, data.value);
    }
  }

  method Copy<V(!new)>(src: HashTable<V>, dst: HashTable<V>)
    requires src.Valid() && dst.Valid() && src.Repr !! dst.Repr
    modifies dst.Repr
    ensures src.Valid() && dst.Valid() && fresh(dst.Repr - old(dst.Repr)) && src.Repr !! dst.Repr
    ensures src.Model() == old(src.Model()) && src.Repr == old(src.Repr) && |src.Model().chains| > 0 && |old(dst.Model()).chains| > 0
    ensures dst.Model() == Copied(src.cfg, src.Model(), dst.cfg, old(dst.Model()))
  {
    var keys := src.KeysData();
    ghost var t, u := src.Model(), dst.Model();
    ValidBuckets(src);
    ValidBuckets(dst);
    assert keys == KeysOf(Flatten(t.chains)) && keys[..0] == [] && CopyKeys(src.cfg, t, keys[..0], dst.cfg, u) == u;
    assert Copied(src.cfg, t, dst.cfg, u) == CopyKeys(src.cfg, t, keys, dst.cfg, u);
    hide *;
    var i := 0;
    while i < |keys|
      invariant i <= |keys| && src.Valid() && dst.Valid() && src.Repr !! dst.Repr && fresh(dst.Repr - old(dst.Repr))
      invariant src.Repr == old(src.Repr) && src.Model() == t
      invariant dst.Model() == CopyKeys(src.cfg, t, keys[..i], dst.cfg, u)
    {
      CopyNext(src.cfg, t, keys, dst.cfg, u, i);
      CopyKey(src, dst, keys[i]);
      i := i + 1;
    }
    assert keys[..i] == keys;
  }

  lemma ValidBuckets<V(!new)>(ht: HashTable<V>)
    requires ht.Valid()
    ensures |ht.Model().chains| > 0 && ht in ht.Repr
  {}

  lemma CopyNext<V>(from: Config, src: Table<V>, keys: seq<Key>, into: Config, dst: Table<V>, i: nat)
    requires |src.chains| > 0 && |dst.chains| > 0 && i < |keys|
    ensures
      var d := CopyKeys(from, src, keys[..i], into, dst);
      CopyKeys(from, src, keys[..i + 1], into, dst) ==
        match Get(from, src, keys[i]) case None => d case Some(data) => Put(into, d, keys[i], data)
  {
    assert keys[..i + 1][..i] == keys[..i];
  }

  /** A table and its configuration, none for a NULL table. */
  type Source<V> = Option<(Config, Table<V>)>

  ghost function TableOf<V(!new)>(ht: HashTable?<V>): Source<V>
    reads ht
  {
    if ht == null then None else Some((ht.cfg, ht.Model()))
  }

  /** NULL, or a valid table whose heap objects are `repr`. */
  ghost predicate Proper<V(!new)>(ht: HashTable?<V>, repr: set<object>)
    reads ht, repr
  {
    ht != null ==> ht.Repr == repr && ht in repr && ht.Valid()
  }

  ghost predicate HasBuckets<V>(a: Source<V>) {
    a.Some? ==> |a.value.1.chains| > 0
  }

  ghost function CopiedFrom<V>(a: Source<V>, cfg: Config, t: Table<V>): (r: Table<V>)
    requires HasBuckets(a) && |t.chains| > 0
    ensures |r.chains| > 0
  {
    if a.Some? then Copied(a.value.0, a.value.1, cfg, t) else t
  }

  /** The merged table as a value: both tables copied, in turn, into a fresh one. */
  ghost function Merged<V>(cfg: Config, a: Source<V>, b: Source<V>): Table<V>
    requires HasBuckets(a) && HasBuckets(b)
  {
    HashSizeIsLeast(SizeOf(a) + SizeOf(b));
    CopiedFrom(b, cfg, CopiedFrom(a, cfg, New<V>(SizeOf(a) + SizeOf(b))))
  }

  method CopyIfAny<V(!new)>(src: HashTable?<V>, dst: HashTable<V>, ghost repr: set<object>)
    requires dst.Valid() && Proper(src, repr) && repr !! dst.Repr
    modifies dst.Repr
    ensures dst.Valid() && fresh(dst.Repr - old(dst.Repr)) && repr !! dst.Repr
    ensures HasBuckets(old(TableOf(src))) && |old(dst.Model()).chains| > 0
    ensures dst.Model() == CopiedFrom(old(TableOf(src)), dst.cfg, old(dst.Model()))
  {
    ValidBuckets(dst);
    hide HashTable.Valid, Copied;
    if src != null {
      Copy(src, dst);
    }
  }

  /** Entries of a table; none for a NULL table. */
  method NumEntries<V(!new)>(ht: HashTable?<V>, ghost repr: set<object>) returns (n: nat)
    requires Proper(ht, repr)
    ensures n == SizeOf(TableOf(ht)) && HasBuckets(TableOf(ht)) && (ht != null ==> ht in repr)
  {
    n := if ht == null then 0 else ht.entries;
  }

  /** A new table with the entries of both; `hash` is the default hash function. */
  method Merge<V(!new)>(ht1: HashTable?<V>, ht2: HashTable?<V>, flags: Flags, hash: Key -> nat, ghost repr1: set<object>, ghost repr2: set<object>)
    returns (ht: HashTable<V>)
    requires Proper(ht1, repr1) && Proper(ht2, repr2)
    ensures ht.Valid() && fresh(ht.Repr) && ht.cfg == Config(hash, flags.(frozenUntilGrows := true))
    ensures HasBuckets(TableOf(ht1)) && HasBuckets(TableOf(ht2))
    ensures ht.Model() == Merged(ht.cfg, TableOf(ht1), TableOf(ht2))
  {
    hide *;
    var n1 := NumEntries(ht1, repr1);
    var n2 := NumEntries(ht2, repr2);
    ghost var a, b := TableOf(ht1), TableOf(ht2);
    ht := new HashTable<V>(n1 + n2, Config(hash, flags.(frozenUntilGrows := true)));
    MergedIs(ht.cfg, a, b);
    CopyIfAny(ht1, ht, repr1);
    CopyIfAny(ht2, ht, repr2);
  }

  lemma MergedIs<V>(cfg: Config, a: Source<V>, b: Source<V>)
    requires HasBuckets(a) && HasBuckets(b)
    ensures |New<V>(SizeOf(a) + SizeOf(b)).chains| > 0
    ensures Merged(cfg, a, b) == CopiedFrom(b, cfg, CopiedFrom(a, cfg, New<V>(SizeOf(a) + SizeOf(b))))
  {
    HashSizeIsLeast(SizeOf(a) + SizeOf(b));
    hide CopiedFrom;
  }

  ghost function SizeOf<V>(a: Source<V>): nat {
    if a.Some? then Entries(a.value.1) else 0
  }

  /** The map of a table; a NULL table has no entries. */
  ghost function ContentsOf<V(!new)>(a: Source<V>): map<Key, V> {
    if a.Some? then Contents(a.value.0, a.value.1) else map[]
  }

  /** A proper table whose keys compare as in the merged one. */
  ghost predicate Mergeable<V(!new)>(cfg: Config, a: Source<V>) {
    a.Some? ==> Inv(a.value.0, a.value.1) && a.value.0.flags.ignoreCase == cfg.flags.ignoreCase
  }

  lemma CopiedFromRefines<V(!new)>(a: Source<V>, cfg: Config, t: Table<V>)
    requires Mergeable(cfg, a) && Inv(cfg, t)
    ensures HasBuckets(a) && |t.chains| > 0
    ensures Inv(cfg, CopiedFrom(a, cfg, t)) && Contents(cfg, CopiedFrom(a, cfg, t)) == Contents(cfg, t) + ContentsOf(a)
  {
    InvBuckets(cfg, t);
    if a.Some? {
      InvBuckets(a.value.0, a.value.1);
      CopiedRefines(a.value.0, a.value.1, cfg, t);
    }
  }

  /** Merging is union, in which the second table wins. */
  lemma MergeRefines<V(!new)>(cfg: Config, a: Source<V>, b: Source<V>)
    requires Mergeable(cfg, a) && Mergeable(cfg, b)
    ensures HasBuckets(a) && HasBuckets(b)
    ensures Inv(cfg, Merged(cfg, a, b)) && Contents(cfg, Merged(cfg, a, b)) == ContentsOf(a) + ContentsOf(b)
  {
    hide Inv, Contents, CopiedFrom, ContentsOf, Mergeable;
    var t0 := New<V>(SizeOf(a) + SizeOf(b));
    NewRefines<V>(cfg, SizeOf(a) + SizeOf(b));
    CopiedFromRefines(a, cfg, t0);
    CopiedFromRefines(b, cfg, CopiedFrom(a, cfg, t0));
    assert map[] + ContentsOf(a) == ContentsOf(a);
  }
}
