/**
 * What resizing costs: load factors after a resize, and the amortised bound on all the work that
 * resizes do over any run of puts and deletes.
 */
module TableCost {
  import opened TableModel

  // ---------- Counting entries ----------

  lemma {:induction false} FlattenUpdate<V>(chains: seq<seq<Pair<V>>>, b: nat, chain: seq<Pair<V>>)
    requires b < |chains|
    ensures |Flatten(chains[b := chain])| == |Flatten(chains)| - |chains[b]| + |chain|
  {
    var k := |chains| - 1;
    var u := chains[b := chain];
    if b < k {
      FlattenUpdate(chains[..k], b, chain);
      assert u[..k] == chains[..k][b := chain];
    } else {
      assert u[..k] == chains[..k];
    }
  }

  lemma {:induction false} FlattenNothing<V>(n: nat)
    ensures Flatten<V>(EmptyChains(n)) == []
  {
    if n > 0 {
      assert EmptyChains<V>(n)[..n - 1] == EmptyChains(n - 1);
      FlattenNothing<V>(n - 1);
    }
  }

  lemma {:induction false} RedistributeEntries<V>(cfg: Config, ps: seq<Pair<V>>, n: nat)
    requires n > 0
    ensures |Flatten(Redistribute(cfg, ps, n))| == |ps|
  {
    if |ps| == 0 {
      FlattenNothing<V>(n);
    } else {
      var p, r := ps[|ps| - 1], Redistribute(cfg, ps[..|ps| - 1], n);
      RedistributeEntries(cfg, ps[..|ps| - 1], n);
      FlattenUpdate(r, Bucket(cfg, p.key, n), [p] + r[Bucket(cfg, p.key, n)]);
    }
  }

  lemma RehashEntries<V>(cfg: Config, t: Table<V>)
    ensures Entries(Rehash(cfg, t)) == Entries(t) && |Rehash(cfg, t).chains| == HashSize(2 * Entries(t)) > 0
  {
    HashSizeIsLeast(2 * Entries(t));
    if HashSize(2 * Entries(t)) != |t.chains| {
      RedistributeEntries(cfg, Flatten(t.chains), HashSize(2 * Entries(t)));
    }
  }

  lemma StoreEntries<V>(cfg: Config, t: Table<V>, k: Key, data: V)
    requires |t.chains| > 0
    ensures Entries(Store(cfg, t, k, data)) == Entries(t) + if Get(cfg, t, k).None? then 1 else 0
  {
    var b := Bucket(cfg, k, |t.chains|);
    FlattenUpdate(t.chains, b, Store(cfg, t, k, data).chains[b]);
  }

  lemma UnlinkEntries<V>(cfg: Config, t: Table<V>, k: Key)
    requires |t.chains| > 0
    ensures Entries(Unlink(cfg, t, k)) == Entries(t) - if Get(cfg, t, k).Some? then 1 else 0
  {
    var b := Bucket(cfg, k, |t.chains|);
    if Get(cfg, t, k).Some? {
      FlattenUpdate(t.chains, b, Unlink(cfg, t, k).chains[b]);
    }
  }

  // ---------- When the buckets change ----------

  ghost predicate LeastPow2(n: nat, s: nat) {
    IsPow2(n) && n >= s && forall p: nat | IsPow2(p) && p >= s :: n <= p
  }

  /** One resize, counted in 32 bits if it changes anything; the buckets are for twice the entries. */
  ghost predicate OneResize<V>(u: Table<V>, t: Table<V>) {
    && LeastPow2(|u.chains|, 2 * Entries(u))
    && u.resized == if |u.chains| == |t.chains| then t.resized else (t.resized + 1) % 0x1_0000_0000
  }

  predicate SameSize<V>(u: Table<V>, t: Table<V>) {
    |u.chains| == |t.chains| && u.resized == t.resized
  }

  /** The table does not forbid shrinking: a default table does until it has been resized. */
  predicate Shrinks<V>(cfg: Config, t: Table<V>) {
    !cfg.flags.frozen && (cfg.flags.frozenUntilGrows ==> t.resized > 0)
  }

  lemma RehashResizes<V>(cfg: Config, t: Table<V>)
    ensures OneResize(Rehash(cfg, t), t) && Entries(Rehash(cfg, t)) == Entries(t)
  {
    RehashEntries(cfg, t);
    HashSizeIsLeast(2 * Entries(t));
    hide HashSize, Redistribute;
  }

  lemma NewBuckets<V>(size: nat)
    ensures var t := New<V>(size); LeastPow2(|t.chains|, size) && Entries(t) == 0 && t.resized == 0
  {
    HashSizeIsLeast(size);
    FlattenNothing<V>(HashSize(size));
  }

  /** A put resizes a table that is not frozen exactly when a new key takes it above 3/4. */
  lemma PutBuckets<V>(cfg: Config, t: Table<V>, k: Key, data: V)
    requires |t.chains| > 0
    ensures
      var u, e := Put(cfg, t, k, data), Entries(t) + if Get(cfg, t, k).None? then 1 else 0;
      && Entries(u) == e
      && if !cfg.flags.frozen && Get(cfg, t, k).None? && 4 * e > 3 * |t.chains| then OneResize(u, t) else SameSize(u, t)
  {
    var s := Store(cfg, t, k, data);
    StoreEntries(cfg, t, k, data);
    RehashResizes(cfg, s);
    hide OneResize, Rehash, Store, Get, Entries;
    assert OneResize(Rehash(cfg, s), t) by { ResizeOf(Rehash(cfg, s), s, t); }
  }

  lemma ResizeOf<V>(u: Table<V>, s: Table<V>, t: Table<V>)
    requires OneResize(u, s) && SameSize(s, t)
    ensures OneResize(u, t)
  {}

  /** A delete resizes a table that may shrink exactly when the loss of a key takes it below 1/4. */
  lemma DeleteBuckets<V>(cfg: Config, t: Table<V>, k: Key)
    requires |t.chains| > 0
    ensures
      var u, e := Delete(cfg, t, k), Entries(t) - if Get(cfg, t, k).Some? then 1 else 0;
      && Entries(u) == e
      && if Shrinks(cfg, t) && Get(cfg, t, k).Some? && 4 * e < |t.chains| then OneResize(u, t) else SameSize(u, t)
  {
    var s := Unlink(cfg, t, k);
    UnlinkEntries(cfg, t, k);
    RehashResizes(cfg, s);
    hide OneResize, Rehash, Unlink, Get, Entries;
    assert OneResize(Rehash(cfg, s), t) by { ResizeOf(Rehash(cfg, s), s, t); }
  }

  /** A clear leaves one bucket when the table may shrink, and all its buckets when it may not. */
  lemma ClearBuckets<V>(cfg: Config, t: Table<V>)
    requires |t.chains| > 0
    ensures
      var u := Clear(cfg, t);
      && Entries(u) == 0 && |u.chains| == (if Shrinks(cfg, t) then 1 else |t.chains|)
      && u.resized == if |u.chains| == |t.chains| then t.resized else (t.resized + 1) % 0x1_0000_0000
  {
    FlattenNothing<V>(|t.chains|);
    RehashEntries(cfg, t.(chains := EmptyChains(|t.chains|)));
  }

  // ---------- Load factors ----------

  /** Any resize of a non-empty table leaves between 1/4 (exclusive) and 1/2 entries per bucket. */
  lemma LoadAfterRehash<V>(cfg: Config, t: Table<V>)
    requires Entries(t) > 0
    ensures var u := Rehash(cfg, t); |u.chains| < 4 * Entries(u) && 2 * Entries(u) <= |u.chains|
    ensures var u := Rehash(cfg, t); !TooFull(Entries(u), |u.chains|) && !TooEmpty(Entries(u), |u.chains|)
  {
    RehashEntries(cfg, t);
    HashSizeIsLeast(2 * Entries(t));
  }

  lemma GrowthDoubles(entries: nat, buckets: nat)
    requires IsPow2(buckets) && 4 * entries > 3 * buckets
    ensures HashSize(2 * entries) >= 2 * buckets
  {
    HashSizeIsLeast(2 * entries);
    Pow2Apart(buckets, HashSize(2 * entries));
  }

  lemma ShrinkHalves(entries: nat, buckets: nat)
    requires IsPow2(buckets) && buckets > 1 && 4 * entries < buckets
    ensures 2 * HashSize(2 * entries) <= buckets
  {
    HashSizeIsLeast(2 * entries);
    Pow2Apart(HashSize(2 * entries), buckets);
  }

  /** A resize never calls for another: rehashing again changes nothing, not even the count of resizes. */
  lemma RehashSettles<V>(cfg: Config, t: Table<V>)
    ensures Rehash(cfg, Rehash(cfg, t)) == Rehash(cfg, t)
  {
    RehashEntries(cfg, t);
  }

  // ---------- Amortised cost ----------

  /** Buckets scanned plus entries relinked by `cfuhash_rehash`. */
  function RehashWork<V>(t: Table<V>): nat {
    if HashSize(2 * Entries(t)) == |t.chains| then 0 else |t.chains| + Entries(t)
  }

  datatype Op<V> = PutOp(key: Key, data: V) | DeleteOp(key: Key)

  function Apply<V>(cfg: Config, t: Table<V>, op: Op<V>): Table<V>
    requires |t.chains| > 0
  {
    match op
    case PutOp(k, data) => Put(cfg, t, k, data)
    case DeleteOp(k) => Delete(cfg, t, k)
  }

  /** The resizing work of one operation. */
  function Work<V>(cfg: Config, t: Table<V>, op: Op<V>): nat
    requires |t.chains| > 0
  {
    match op
    case PutOp(k, data) =>
      var u := Store(cfg, t, k, data);
      if Get(cfg, t, k).None? && !cfg.flags.frozen && TooFull(Entries(u), |u.chains|) then RehashWork(u) else 0
    case DeleteOp(k) =>
      var u := Unlink(cfg, t, k);
      if Get(cfg, t, k).Some? && MayShrink(cfg, t.resized) && TooEmpty(Entries(u), |u.chains|) then RehashWork(u) else 0
  }

  function Run<V>(cfg: Config, t: Table<V>, ops: seq<Op<V>>): (r: (Table<V>, nat))
    requires |t.chains| > 0
    ensures |r.0.chains| > 0
  {
    if |ops| == 0 then (t, 0)
    else
      var k := |ops| - 1;
      var (u, w) := Run(cfg, t, ops[..k]);
      ApplyBuckets(cfg, u, ops[k]);
      (Apply(cfg, u, ops[k]), w + Work(cfg, u, ops[k]))
  }

  lemma ApplyBuckets<V>(cfg: Config, t: Table<V>, op: Op<V>)
    requires |t.chains| > 0
    ensures |Apply(cfg, t, op).chains| > 0
  {
    match op
    case PutOp(k, data) => RehashEntries(cfg, Store(cfg, t, k, data));
    case DeleteOp(k) => RehashEntries(cfg, Unlink(cfg, t, k));
  }

  /** What every put and delete leaves: not too full, and not too empty once it has been resized. */
  predicate Steady(entries: nat, buckets: nat, resized: nat) {
    && IsPow2(buckets) && !TooFull(entries, buckets)
    && (resized != 0 ==> !TooEmpty(entries, buckets) || (entries == 0 && buckets == 1))
  }

  function Positive(x: int): nat {
    if x > 0 then x else 0
  }

  /** Work saved up for the next growth or shrink; none is due while the load is within 3/8 and 1/2. */
  function Potential(entries: nat, buckets: nat, resized: nat): nat {
    Positive(8 * entries - 4 * buckets) + if resized == 0 then 0 else 2 * Positive(3 * buckets - 8 * entries)
  }

  /** A triggered growth exactly doubles the buckets. */
  lemma GrowthExact(entries: nat, buckets: nat)
    requires IsPow2(buckets) && 4 * entries - 4 <= 3 * buckets < 4 * entries
    ensures HashSize(2 * entries) == 2 * buckets
  {
    GrowthDoubles(entries, buckets);
    HashSizeBounds(2 * entries);
    DoublePow2(buckets);
    hide IsPow2, HashSize;
    if HashSize(2 * entries) > 2 * buckets {
      Pow2Apart(2 * buckets, HashSize(2 * entries));
    }
  }

  lemma HashSizeBounds(s: nat)
    requires s > 0
    ensures IsPow2(HashSize(s)) && s <= HashSize(s) < 2 * s
  {
    HashSizeIsLeast(s);
  }

  lemma DoublePow2(p: nat)
    requires IsPow2(p)
    ensures IsPow2(2 * p)
  {}

  lemma HalfPow2(p: nat)
    requires IsPow2(p) && p > 2
    ensures IsPow2(p / 2) && p % 4 == 0
  {}

  lemma ShrinkBound(entries: nat, buckets: nat)
    requires IsPow2(buckets) && TooEmpty(entries, buckets) && !TooEmpty(entries + 1, buckets)
    ensures HashSize(2 * entries) <= 2 * entries + 2
    ensures buckets <= 4 * entries + 4
  {
    if buckets > 2 {
      HalfPow2(buckets);
      SizeAtMost(2 * entries, buckets / 2);
    }
  }

  lemma SizeAtMost(s: nat, p: nat)
    requires IsPow2(p) && s <= p
    ensures HashSize(s) <= p
  {
    HashSizeIsLeast(s);
  }

  lemma PutCost(entries: nat, buckets: nat, resized: nat)
    requires Steady(entries, buckets, resized) && !TooFull(entries + 1, buckets)
    ensures Steady(entries + 1, buckets, resized)
    ensures Potential(entries + 1, buckets, resized) <= Potential(entries, buckets, resized) + 16
  {}

  lemma GrowthCost(entries: nat, buckets: nat, resized: nat, resized': nat)
    requires Steady(entries, buckets, resized) && TooFull(entries + 1, buckets)
    ensures Steady(entries + 1, 2 * buckets, resized')
    ensures buckets + entries + 1 + Potential(entries + 1, 2 * buckets, resized') <= Potential(entries, buckets, resized) + 16
  {
    GrowthExact(entries + 1, buckets);
  }

  lemma DeleteCost(entries: nat, buckets: nat, resized: nat)
    requires entries > 0 && Steady(entries, buckets, resized) && (resized != 0 ==> !TooEmpty(entries - 1, buckets))
    ensures Steady(entries - 1, buckets, resized)
    ensures Potential(entries - 1, buckets, resized) <= Potential(entries, buckets, resized) + 16
  {}

  lemma ShrinkCost(entries: nat, buckets: nat, resized: nat, resized': nat)
    requires resized != 0 && Steady(entries + 1, buckets, resized) && TooEmpty(entries, buckets)
    ensures var n := HashSize(2 * entries);
      && Steady(entries, n, resized')
      && buckets + entries + Potential(entries, n, resized') <= Potential(entries + 1, buckets, resized) + 16
  {
    HashSizeIsLeast(2 * entries);
    ShrinkBound(entries, buckets);
  }

  /** One operation: its work is paid by 16 units and by what the potential loses. */
  lemma StepCost<V>(cfg: Config, t: Table<V>, op: Op<V>)
    requires !cfg.flags.frozen && cfg.flags.frozenUntilGrows
    requires |t.chains| > 0 && t.resized < UINT_RANGE && Steady(Entries(t), |t.chains|, t.resized)
    ensures
      var u := Apply(cfg, t, op);
      && |u.chains| > 0 && u.resized < UINT_RANGE && Steady(Entries(u), |u.chains|, u.resized)
      && Work(cfg, t, op) + Potential(Entries(u), |u.chains|, u.resized) <= Potential(Entries(t), |t.chains|, t.resized) + 16
  {
    hide Steady, Potential, Entries, Store, Unlink, HashSize, TooFull, TooEmpty;
    var u := Apply(cfg, t, op);
    match op
    case PutOp(k, data) =>
      var s := Store(cfg, t, k, data);
      StoreEntries(cfg, t, k, data);
      RehashEntries(cfg, s);
      if Get(cfg, t, k).None? && TooFull(Entries(s), |s.chains|) {
        GrowthCost(Entries(t), |t.chains|, t.resized, u.resized);
        SteadyGrowth(Entries(t), |t.chains|, t.resized);
      } else if Get(cfg, t, k).None? {
        PutCost(Entries(t), |t.chains|, t.resized);
      }
    case DeleteOp(k) =>
      var s := Unlink(cfg, t, k);
      UnlinkEntries(cfg, t, k);
      RehashEntries(cfg, s);
      if Get(cfg, t, k).Some? && t.resized != 0 && TooEmpty(Entries(s), |s.chains|) {
        ShrinkCost(Entries(s), |s.chains|, t.resized, u.resized);
        SteadyShrink(Entries(s), |s.chains|, t.resized);
      } else if Get(cfg, t, k).Some? {
        DeleteCost(Entries(t), |t.chains|, t.resized);
      }
  }

  lemma SteadyGrowth(entries: nat, buckets: nat, resized: nat)
    requires Steady(entries, buckets, resized) && TooFull(entries + 1, buckets)
    ensures HashSize(2 * (entries + 1)) == 2 * buckets > 0
  {
    GrowthExact(entries + 1, buckets);
  }

  lemma SteadyShrink(entries: nat, buckets: nat, resized: nat)
    requires resized != 0 && Steady(entries + 1, buckets, resized) && TooEmpty(entries, buckets)
    ensures HashSize(2 * entries) != buckets && HashSize(2 * entries) > 0
  {
    HashSizeIsLeast(2 * entries);
  }

  lemma {:induction false} RunCost<V>(cfg: Config, t: Table<V>, ops: seq<Op<V>>)
    requires !cfg.flags.frozen && cfg.flags.frozenUntilGrows
    requires |t.chains| > 0 && t.resized < UINT_RANGE && Steady(Entries(t), |t.chains|, t.resized)
    ensures
      var (u, w) := Run(cfg, t, ops);
      && u.resized < UINT_RANGE && Steady(Entries(u), |u.chains|, u.resized)
      && w + Potential(Entries(u), |u.chains|, u.resized) <= Potential(Entries(t), |t.chains|, t.resized) + 16 * |ops|
  {
    if |ops| > 0 {
      var k := |ops| - 1;
      RunCost(cfg, t, ops[..k]);
      StepCost(cfg, Run(cfg, t, ops[..k]).0, ops[k]);
    }
  }

  /** Over any run from a fresh table of any size, resizing costs at most 16 units an operation. */
  lemma AmortisedResizing<V>(cfg: Config, size: nat, ops: seq<Op<V>>)
    requires !cfg.flags.frozen && cfg.flags.frozenUntilGrows
    ensures |New<V>(size).chains| > 0 && Run(cfg, New(size), ops).1 <= 16 * |ops|
  {
    HashSizeIsLeast(size);
    FlattenNothing<V>(HashSize(size));
    RunCost(cfg, New(size), ops);
  }
}
