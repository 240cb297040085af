/** The hash table denotes a finite map, and every operation does to the map what it should. */
module TableRefinement {
  import opened Wrappers
  import opened TableModel

  /** Every key stands in the bucket its hash selects, once; the bucket count is a power of two. */
  ghost predicate Inv<V(!new)>(cfg: Config, t: Table<V>) {
    && IsPow2(|t.chains|)
    && forall b | 0 <= b < |t.chains| :: ChainInv(cfg, t.chains[b], b, |t.chains|)
  }

  ghost predicate ChainInv<V(!new)>(cfg: Config, chain: seq<Pair<V>>, b: nat, n: nat)
    requires n > 0
  {
    && (forall j | 0 <= j < |chain| :: GoodKey(cfg.flags, chain[j].key) && Bucket(cfg, chain[j].key, n) == b)
    && Unique(cfg.flags, chain)
  }

  ghost predicate Unique<V(!new)>(flags: Flags, ps: seq<Pair<V>>) {
    forall i, j | 0 <= i < j < |ps| :: Canon(flags, ps[i].key) != Canon(flags, ps[j].key)
  }

  lemma {:induction false} FlattenHolds<V(!new)>(chains: seq<seq<Pair<V>>>, p: Pair<V>)
    ensures p in Flatten(chains) <==> exists b :: 0 <= b < |chains| && p in chains[b]
  {
    if |chains| > 0 {
      var k := |chains| - 1;
      FlattenHolds(chains[..k], p);
      if p in Flatten(chains[..k]) {
        var b :| 0 <= b < k && p in chains[..k][b];
        assert p in chains[b];
      }
      if b :| 0 <= b < |chains| && p in chains[b] {
        assert b < k ==> p in chains[..k][b];
      }
    }
  }

  /** The bucket of a stored pair is the one its key selects. */
  lemma HoldsInBucket<V(!new)>(cfg: Config, t: Table<V>, p: Pair<V>)
    requires Inv(cfg, t)
    ensures p in Flatten(t.chains) <==> p in t.chains[Bucket(cfg, p.key, |t.chains|)]
    ensures p in Flatten(t.chains) ==> GoodKey(cfg.flags, p.key)
  {
    FlattenHolds(t.chains, p);
    if b :| 0 <= b < |t.chains| && p in t.chains[b] {
      assert ChainInv(cfg, t.chains[b], b, |t.chains|);
    }
  }

  lemma KeysUnique<V(!new)>(cfg: Config, t: Table<V>, p: Pair<V>, q: Pair<V>)
    requires Inv(cfg, t) && p in Flatten(t.chains) && q in Flatten(t.chains)
    requires Canon(cfg.flags, p.key) == Canon(cfg.flags, q.key)
    ensures p == q
  {
    HoldsInBucket(cfg, t, p);
    HoldsInBucket(cfg, t, q);
    var b := Bucket(cfg, p.key, |t.chains|);
    assert ChainInv(cfg, t.chains[b], b, |t.chains|);
  }

  ghost function KeySet<V(!new)>(cfg: Config, t: Table<V>): set<Key> {
    set p | p in Flatten(t.chains) :: Canon(cfg.flags, p.key)
  }

  ghost function DataOf<V(!new)>(cfg: Config, t: Table<V>, c: Key): V
    requires c in KeySet(cfg, t)
  {
    var p :| p in Flatten(t.chains) && Canon(cfg.flags, p.key) == c;
    p.data
  }

  /** The map a table denotes; keys are taken in the form in which they are hashed. */
  ghost function Contents<V(!new)>(cfg: Config, t: Table<V>): map<Key, V> {
    map c | c in KeySet(cfg, t) :: DataOf(cfg, t, c)
  }

  lemma ContentsHolds<V(!new)>(cfg: Config, t: Table<V>, p: Pair<V>)
    requires Inv(cfg, t) && p in Flatten(t.chains)
    ensures Canon(cfg.flags, p.key) in Contents(cfg, t) && Contents(cfg, t)[Canon(cfg.flags, p.key)] == p.data
  {
    var c := Canon(cfg.flags, p.key);
    assert c in KeySet(cfg, t);
    var q :| q in Flatten(t.chains) && Canon(cfg.flags, q.key) == c && DataOf(cfg, t, c) == q.data;
    KeysUnique(cfg, t, p, q);
  }

  lemma ContentsFrom<V(!new)>(cfg: Config, t: Table<V>, c: Key) returns (p: Pair<V>)
    requires Inv(cfg, t) && c in Contents(cfg, t)
    ensures p in Flatten(t.chains) && Canon(cfg.flags, p.key) == c && p.data == Contents(cfg, t)[c]
  {
    p :| p in Flatten(t.chains) && Canon(cfg.flags, p.key) == c;
    ContentsHolds(cfg, t, p);
  }

  /** A map that has every stored pair, and no other keys, is the one the table denotes. */
  lemma ContentsAre<V(!new)>(cfg: Config, t: Table<V>, m: map<Key, V>)
    requires Inv(cfg, t)
    requires forall p | p in Flatten(t.chains) :: Canon(cfg.flags, p.key) in m && m[Canon(cfg.flags, p.key)] == p.data
    requires forall c | c in m :: exists p :: p in Flatten(t.chains) && Canon(cfg.flags, p.key) == c
    ensures Contents(cfg, t) == m
  {
    forall c ensures c in Contents(cfg, t) <==> c in m {}
    forall c | c in m ensures Contents(cfg, t)[c] == m[c] {
      var p := ContentsFrom(cfg, t, c);
    }
  }

  // ---------- Look-up ----------

  lemma FindInCanon<V(!new)>(cfg: Config, t: Table<V>, k: Key)
    requires Inv(cfg, t) && GoodKey(cfg.flags, k)
    ensures
      var chain := t.chains[Bucket(cfg, k, |t.chains|)];
      FoundAt(cfg.flags, chain, k, FindIn(cfg.flags, chain, k))
  {
    KeyEqualExact(cfg.flags, k);
  }

  lemma GetRefines<V(!new)>(cfg: Config, t: Table<V>, k: Key)
    requires Inv(cfg, t) && GoodKey(cfg.flags, k)
    ensures Get(cfg, t, k) == if Canon(cfg.flags, k) in Contents(cfg, t) then Some(Contents(cfg, t)[Canon(cfg.flags, k)]) else None
  {
    var b := Bucket(cfg, k, |t.chains|);
    var chain := t.chains[b];
    var j := FindIn(cfg.flags, chain, k);
    FindInCanon(cfg, t, k);
    if j < |chain| {
      FlattenHolds(t.chains, chain[j]);
      ContentsHolds(cfg, t, chain[j]);
    } else if Canon(cfg.flags, k) in Contents(cfg, t) {
      var p := ContentsFrom(cfg, t, Canon(cfg.flags, k));
      HoldsInBucket(cfg, t, p);
    }
  }

  // ---------- Updates ----------

  /** Replacing one chain changes what is stored in that bucket only. */
  lemma UpdateHolds<V(!new)>(cfg: Config, t: Table<V>, b: nat, chain: seq<Pair<V>>, p: Pair<V>)
    requires Inv(cfg, t) && b < |t.chains|
    ensures p in Flatten(t.chains[b := chain]) <==>
      p in chain || (p in Flatten(t.chains) && Bucket(cfg, p.key, |t.chains|) != b)
  {
    var u := t.chains[b := chain];
    FlattenHolds(u, p);
    HoldsInBucket(cfg, t, p);
    if i :| 0 <= i < |u| && p in u[i] && i != b {
      FlattenHolds(t.chains, p);
      assert p in t.chains[i] && ChainInv(cfg, t.chains[i], i, |t.chains|);
    }
    if p in chain {
      assert p in u[b];
    } else if p in Flatten(t.chains) && Bucket(cfg, p.key, |t.chains|) != b {
      assert p in u[Bucket(cfg, p.key, |t.chains|)];
    }
  }

  /** The chain has the pair `stored` for key `k`, or none, and is otherwise as before. */
  ghost predicate Replaces<V(!new)>(flags: Flags, chain: seq<Pair<V>>, chain': seq<Pair<V>>, k: Key, stored: Option<Pair<V>>) {
    && (stored.Some? ==> Canon(flags, stored.value.key) == Canon(flags, k))
    && forall p :: p in chain' <==> stored == Some(p) || (p in chain && Canon(flags, p.key) != Canon(flags, k))
  }

  lemma ReplaceHolds<V(!new)>(cfg: Config, t: Table<V>, k: Key, chain': seq<Pair<V>>, stored: Option<Pair<V>>, p: Pair<V>)
    requires Inv(cfg, t)
    requires Replaces(cfg.flags, t.chains[Bucket(cfg, k, |t.chains|)], chain', k, stored)
    ensures p in Flatten(t.chains[Bucket(cfg, k, |t.chains|) := chain']) <==>
      stored == Some(p) || (p in Flatten(t.chains) && Canon(cfg.flags, p.key) != Canon(cfg.flags, k))
  {
    UpdateHolds(cfg, t, Bucket(cfg, k, |t.chains|), chain', p);
    HoldsInBucket(cfg, t, p);
    FlattenHolds(t.chains, p);
  }

  lemma ReplaceInv<V(!new)>(cfg: Config, t: Table<V>, b: nat, chain': seq<Pair<V>>)
    requires Inv(cfg, t) && b < |t.chains| && ChainInv(cfg, chain', b, |t.chains|)
    ensures Inv(cfg, t.(chains := t.chains[b := chain']))
  {}

  lemma ReplaceRefines<V(!new)>(cfg: Config, t: Table<V>, k: Key, chain': seq<Pair<V>>, stored: Option<Pair<V>>)
    requires Inv(cfg, t) && ChainInv(cfg, chain', Bucket(cfg, k, |t.chains|), |t.chains|)
    requires Replaces(cfg.flags, t.chains[Bucket(cfg, k, |t.chains|)], chain', k, stored)
    ensures
      var u := t.(chains := t.chains[Bucket(cfg, k, |t.chains|) := chain']);
      var c := Canon(cfg.flags, k);
      && Inv(cfg, u)
      && Contents(cfg, u) == if stored.Some? then Contents(cfg, t)[c := stored.value.data] else Contents(cfg, t) - {c}
  {
    var b, c := Bucket(cfg, k, |t.chains|), Canon(cfg.flags, k);
    var u := t.(chains := t.chains[b := chain']);
    ReplaceInv(cfg, t, b, chain');
    hide Inv, ChainInv, Replaces, Contents, Bucket, Flatten, Canon;
    var m := if stored.Some? then Contents(cfg, t)[c := stored.value.data] else Contents(cfg, t) - {c};
    forall p | p in Flatten(u.chains)
      ensures Canon(cfg.flags, p.key) in m && m[Canon(cfg.flags, p.key)] == p.data
    {
      ReplaceHolds(cfg, t, k, chain', stored, p);
      if stored == Some(p) {
        assert Canon(cfg.flags, p.key) == c by { ReplacesKey(cfg.flags, t.chains[b], chain', k, p); }
      } else {
        ContentsHolds(cfg, t, p);
      }
    }
    forall d | d in m ensures exists p :: p in Flatten(u.chains) && Canon(cfg.flags, p.key) == d {
      if stored.Some? && d == c {
        ReplaceHolds(cfg, t, k, chain', stored, stored.value);
        ReplacesKey(cfg.flags, t.chains[b], chain', k, stored.value);
      } else {
        var p := ContentsFrom(cfg, t, d);
        ReplaceHolds(cfg, t, k, chain', stored, p);
      }
    }
    ContentsAre(cfg, u, m);
  }

  lemma ReplacesKey<V(!new)>(flags: Flags, chain: seq<Pair<V>>, chain': seq<Pair<V>>, k: Key, p: Pair<V>)
    requires Replaces(flags, chain, chain', k, Some(p))
    ensures Canon(flags, p.key) == Canon(flags, k)
  {}

  /** `j` is where the chain has the key, or its length. */
  ghost predicate FoundAt<V(!new)>(flags: Flags, chain: seq<Pair<V>>, k: Key, j: nat) {
    && j <= |chain|
    && (j < |chain| ==> Canon(flags, chain[j].key) == Canon(flags, k))
    && (j == |chain| ==> forall i | 0 <= i < |chain| :: Canon(flags, chain[i].key) != Canon(flags, k))
  }

  lemma PrependChain<V(!new)>(cfg: Config, chain: seq<Pair<V>>, b: nat, n: nat, p: Pair<V>)
    requires n > 0 && ChainInv(cfg, chain, b, n) && GoodKey(cfg.flags, p.key) && Bucket(cfg, p.key, n) == b
    requires FoundAt(cfg.flags, chain, p.key, |chain|)
    ensures ChainInv(cfg, [p] + chain, b, n) && Replaces(cfg.flags, chain, [p] + chain, p.key, Some(p))
  {}

  lemma ChangeChain<V(!new)>(cfg: Config, chain: seq<Pair<V>>, b: nat, n: nat, k: Key, data: V, j: nat)
    requires n > 0 && ChainInv(cfg, chain, b, n) && j < |chain| && FoundAt(cfg.flags, chain, k, j)
    ensures
      var p := Pair(chain[j].key, data);
      ChainInv(cfg, chain[j := p], b, n) && Replaces(cfg.flags, chain, chain[j := p], k, Some(p))
  {
    hide Bucket, Canon, GoodKey;
    var p0 := Pair(chain[j].key, data);
    var chain' := chain[j := p0];
    assert forall i | 0 <= i < |chain'| :: chain'[i].key == chain[i].key;
    forall p ensures p in chain' <==> p == p0 || (p in chain && Canon(cfg.flags, p.key) != Canon(cfg.flags, k)) {
      if i :| 0 <= i < |chain| && chain[i] == p && i != j {
        assert chain'[i] == p;
      }
      assert chain'[j] == p0;
    }
  }

  lemma CutChain<V(!new)>(cfg: Config, chain: seq<Pair<V>>, b: nat, n: nat, k: Key, j: nat)
    requires n > 0 && ChainInv(cfg, chain, b, n) && j < |chain| && FoundAt(cfg.flags, chain, k, j)
    ensures
      var chain' := chain[..j] + chain[j + 1..];
      ChainInv(cfg, chain', b, n) && Replaces(cfg.flags, chain, chain', k, None)
  {
    hide Bucket, Canon, GoodKey;
    var chain' := chain[..j] + chain[j + 1..];
    assert forall i | 0 <= i < |chain'| :: chain'[i] == chain[if i < j then i else i + 1];
    forall p ensures p in chain' <==> p in chain && Canon(cfg.flags, p.key) != Canon(cfg.flags, k) {
      if i :| 0 <= i < |chain| && chain[i] == p && i != j {
        assert chain'[if i < j then i else i - 1] == p;
      }
    }
  }

  lemma BucketInv<V(!new)>(cfg: Config, t: Table<V>, k: Key)
    requires Inv(cfg, t)
    ensures ChainInv(cfg, t.chains[Bucket(cfg, k, |t.chains|)], Bucket(cfg, k, |t.chains|), |t.chains|)
  {}

  lemma StoreRefines<V(!new)>(cfg: Config, t: Table<V>, k: Key, data: V)
    requires Inv(cfg, t) && GoodKey(cfg.flags, k)
    ensures Inv(cfg, Store(cfg, t, k, data))
    ensures Contents(cfg, Store(cfg, t, k, data)) == Contents(cfg, t)[Canon(cfg.flags, k) := data]
  {
    hide ChainInv, Replaces, Contents, Bucket, Canon;
    var b := Bucket(cfg, k, |t.chains|);
    var chain := t.chains[b];
    var j := FindIn(cfg.flags, chain, k);
    FindInCanon(cfg, t, k);
    BucketInv(cfg, t, k);
    if j < |chain| {
      ChangeChain(cfg, chain, b, |t.chains|, k, data, j);
      ReplaceRefines(cfg, t, k, chain[j := Pair(chain[j].key, data)], Some(Pair(chain[j].key, data)));
    } else {
      PrependChain(cfg, chain, b, |t.chains|, Pair(k, data));
      ReplaceRefines(cfg, t, k, [Pair(k, data)] + chain, Some(Pair(k, data)));
    }
  }

  lemma UnlinkRefines<V(!new)>(cfg: Config, t: Table<V>, k: Key)
    requires Inv(cfg, t) && GoodKey(cfg.flags, k)
    ensures Inv(cfg, Unlink(cfg, t, k))
    ensures Contents(cfg, Unlink(cfg, t, k)) == Contents(cfg, t) - {Canon(cfg.flags, k)}
  {
    hide ChainInv, Replaces, Contents, Bucket, Canon;
    var b := Bucket(cfg, k, |t.chains|);
    var chain := t.chains[b];
    var j := FindIn(cfg.flags, chain, k);
    FindInCanon(cfg, t, k);
    BucketInv(cfg, t, k);
    if j < |chain| {
      CutChain(cfg, chain, b, |t.chains|, k, j);
      ReplaceRefines(cfg, t, k, chain[..j] + chain[j + 1..], None);
    } else {
      GetRefines(cfg, t, k);
      assert Contents(cfg, t) - {Canon(cfg.flags, k)} == Contents(cfg, t);
    }
  }

  // ---------- Resizing ----------

  /** Relinking stores the same pairs, each in the bucket for the stored size. */
  lemma {:induction false} RedistributeHolds<V(!new)>(cfg: Config, ps: seq<Pair<V>>, n: nat, p: Pair<V>, b: nat)
    requires b < n
    ensures p in Redistribute(cfg, ps, n)[b] <==> p in ps && Bucket(cfg, p.key, n) == b
  {
    if |ps| > 0 {
      RedistributeHolds(cfg, ps[..|ps| - 1], n, p, b);
      assert ps == ps[..|ps| - 1] + [ps[|ps| - 1]];
    }
  }

  lemma {:induction false} RedistributeUnique<V(!new)>(cfg: Config, ps: seq<Pair<V>>, n: nat, b: nat)
    requires b < n && Unique(cfg.flags, ps)
    ensures Unique(cfg.flags, Redistribute(cfg, ps, n)[b])
  {
    if |ps| > 0 {
      var k := |ps| - 1;
      RedistributeUnique(cfg, ps[..k], n, b);
      var r: seq<seq<Pair<V>>> := Redistribute(cfg, ps[..k], n);
      forall i: nat | 0 <= i < |r[b]| ensures Canon(cfg.flags, r[b][i].key) != Canon(cfg.flags, ps[k].key) {
        RedistributeHolds(cfg, ps[..k], n, r[b][i], b);
      }
    }
  }

  lemma {:induction false} FlattenUnique<V(!new)>(cfg: Config, chains: seq<seq<Pair<V>>>, n: nat)
    requires |chains| <= n
    requires forall b | 0 <= b < |chains| :: n > 0 && ChainInv(cfg, chains[b], b, n)
    ensures Unique(cfg.flags, Flatten(chains))
  {
    if |chains| > 0 {
      var k := |chains| - 1;
      FlattenUnique(cfg, chains[..k], n);
      assert ChainInv(cfg, chains[k], k, n);
      forall p | p in Flatten(chains[..k]) ensures Bucket(cfg, p.key, n) < k {
        FlattenHolds(chains[..k], p);
        var b :| 0 <= b < k && p in chains[..k][b];
        assert ChainInv(cfg, chains[b], b, n);
      }
    }
  }

  lemma RehashRefines<V(!new)>(cfg: Config, t: Table<V>)
    requires Inv(cfg, t)
    ensures Inv(cfg, Rehash(cfg, t)) && Contents(cfg, Rehash(cfg, t)) == Contents(cfg, t)
  {
    var u := Rehash(cfg, t);
    if u != t {
      var n := |u.chains|;
      var ps := Flatten(t.chains);
      HashSizeIsLeast(2 * Entries(t));
      FlattenUnique(cfg, t.chains, |t.chains|);
      forall b | 0 <= b < n ensures ChainInv(cfg, u.chains[b], b, n) {
        RedistributeUnique(cfg, ps, n, b);
        forall j | 0 <= j < |u.chains[b]| ensures GoodKey(cfg.flags, u.chains[b][j].key) && Bucket(cfg, u.chains[b][j].key, n) == b {
          RedistributeHolds(cfg, ps, n, u.chains[b][j], b);
          HoldsInBucket(cfg, t, u.chains[b][j]);
        }
      }
      forall p ensures p in Flatten(u.chains) <==> p in ps {
        RedistributeHolds(cfg, ps, n, p, Bucket(cfg, p.key, n));
        HoldsInBucket(cfg, u, p);
      }
      SamePairs(cfg, t, u);
    }
  }

  lemma SamePairs<V(!new)>(cfg: Config, t: Table<V>, u: Table<V>)
    requires Inv(cfg, t) && Inv(cfg, u)
    requires forall p :: p in Flatten(u.chains) <==> p in Flatten(t.chains)
    ensures Contents(cfg, u) == Contents(cfg, t)
  {
    hide Inv;
    forall p | p in Flatten(u.chains)
      ensures Canon(cfg.flags, p.key) in Contents(cfg, t) && Contents(cfg, t)[Canon(cfg.flags, p.key)] == p.data
    {
      ContentsHolds(cfg, t, p);
    }
    forall c | c in Contents(cfg, t) ensures exists p :: p in Flatten(u.chains) && Canon(cfg.flags, p.key) == c {
      var p := ContentsFrom(cfg, t, c);
    }
    ContentsAre(cfg, u, Contents(cfg, t));
  }

  // ---------- The operations ----------

  lemma PutRefines<V(!new)>(cfg: Config, t: Table<V>, k: Key, data: V)
    requires Inv(cfg, t) && GoodKey(cfg.flags, k)
    ensures Inv(cfg, Put(cfg, t, k, data))
    ensures Contents(cfg, Put(cfg, t, k, data)) == Contents(cfg, t)[Canon(cfg.flags, k) := data]
  {
    StoreRefines(cfg, t, k, data);
    RehashRefines(cfg, Store(cfg, t, k, data));
  }

  lemma DeleteRefines<V(!new)>(cfg: Config, t: Table<V>, k: Key)
    requires Inv(cfg, t) && GoodKey(cfg.flags, k)
    ensures Inv(cfg, Delete(cfg, t, k))
    ensures Contents(cfg, Delete(cfg, t, k)) == Contents(cfg, t) - {Canon(cfg.flags, k)}
  {
    hide Inv;
    UnlinkRefines(cfg, t, k);
    RehashRefines(cfg, Unlink(cfg, t, k));
    GetRefines(cfg, t, k);
  }

  lemma {:induction false} FlattenEmpty<V(!new)>(chains: seq<seq<Pair<V>>>)
    requires forall b | 0 <= b < |chains| :: chains[b] == []
    ensures Flatten(chains) == []
  {
    if |chains| > 0 {
      FlattenEmpty(chains[..|chains| - 1]);
    }
  }

  lemma EmptyDenotesNothing<V(!new)>(cfg: Config, t: Table<V>)
    requires IsPow2(|t.chains|) && t.chains == EmptyChains(|t.chains|)
    ensures Inv(cfg, t) && Contents(cfg, t) == map[]
  {
    FlattenEmpty(t.chains);
  }

  lemma NewRefines<V(!new)>(cfg: Config, size: nat)
    ensures Inv<V>(cfg, New(size)) && Contents<V>(cfg, New(size)) == map[]
  {
    HashSizeIsLeast(size);
    EmptyDenotesNothing<V>(cfg, New(size));
  }

  lemma ClearRefines<V(!new)>(cfg: Config, t: Table<V>)
    requires Inv(cfg, t)
    ensures Inv(cfg, Clear(cfg, t)) && Contents(cfg, Clear(cfg, t)) == map[]
  {
    var u := t.(chains := EmptyChains(|t.chains|));
    EmptyDenotesNothing(cfg, u);
    RehashRefines(cfg, u);
  }
}
