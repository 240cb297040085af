/**
 * The hash table of lib/cfuhash.c in the heap: an array of chain heads, and entries linked by `next`
 * that are relinked in place. Each method is proved to compute the operation of TableModel.
 */
module HashTable {
  import opened Wrappers
  import opened TableModel
  import opened TableCost

  class Entry<V> {
    const key: Key
    var data: V
    var next: Entry?<V>

    constructor (key: Key, data: V, next: Entry?<V>)
      ensures this.key == key && this.data == data && this.next == next
    {
      this.key, this.data, this.next := key, data, next;
    }
  }

  type Chains<V> = seq<seq<Entry<V>>>

  ghost predicate Within<V>(chain: seq<Entry<V>>, repr: set<object>) {
    forall j | 0 <= j < |chain| :: chain[j] in repr
  }

  ghost predicate Distinct<V>(chains: Chains<V>) {
    forall b, j, b', j' | 0 <= b < |chains| && 0 <= j < |chains[b]| && 0 <= b' < |chains| && 0 <= j' < |chains[b']| ::
      chains[b][j] == chains[b'][j'] ==> b == b' && j == j'
  }

  ghost function EntryAt<V>(chain: seq<Entry<V>>, j: nat): Entry?<V> {
    if j < |chain| then chain[j] else null
  }

  ghost predicate EntryLinked<V>(chain: seq<Entry<V>>, j: nat, p: Pair<V>)
    requires j < |chain|
    reads chain[j]
  {
    chain[j].next == EntryAt(chain, j + 1) && chain[j].key == p.key && chain[j].data == p.data
  }

  ghost predicate ChainLinked<V>(head: Entry?<V>, chain: seq<Entry<V>>, pairs: seq<Pair<V>>)
    reads chain
  {
    && |chain| == |pairs| && head == EntryAt(chain, 0)
    && forall j | 0 <= j < |chain| :: EntryLinked(chain, j, pairs[j])
  }

  /** The chain is linked from place `j` on. */
  ghost predicate LinkedFrom<V>(chain: seq<Entry<V>>, pairs: seq<Pair<V>>, j: nat)
    reads chain
  {
    |chain| == |pairs| && forall k | j <= k < |chain| :: EntryLinked(chain, k, pairs[k])
  }

  /** The array leads to the chains, whose entries are distinct, in `repr`, and hold the pairs. */
  ghost predicate Linked<V>(buckets: array<Entry?<V>>, chains: Chains<V>, pairs: seq<seq<Pair<V>>>, repr: set<object>)
    reads buckets, repr
  {
    && |chains| == |pairs| == buckets.Length
    && (forall b | 0 <= b < |chains| :: Within(chains[b], repr) && ChainLinked(buckets[b], chains[b], pairs[b]))
    && Distinct(chains)
  }

  /** None of the entries is in the new chains yet. */
  ghost predicate Apart<V>(newChains: Chains<V>, chain: seq<Entry<V>>) {
    forall b, k, j | 0 <= b < |newChains| && 0 <= k < |newChains[b]| && 0 <= j < |chain| :: newChains[b][k] != chain[j]
  }

  lemma ApartHead<V>(newChains: Chains<V>, chain: seq<Entry<V>>, j: nat)
    requires j < |chain| && Apart(newChains, chain[j..])
    ensures Apart(newChains, [chain[j]])
  {
    assert chain[j..][0] == chain[j];
  }

  lemma CutAt<T>(s: seq<T>, j: nat, k: nat)
    requires j < |s| && k < |s| - 1
    ensures (s[..j] + s[j + 1..])[k] == s[if k < j then k else k + 1]
  {}

  lemma ChainOf<V>(head: Entry?<V>, chain: seq<Entry<V>>, pairs: seq<Pair<V>>)
    requires |chain| == |pairs| && head == EntryAt(chain, 0) && forall j | 0 <= j < |chain| :: EntryLinked(chain, j, pairs[j])
    ensures ChainLinked(head, chain, pairs)
  {}

  lemma EntryAtPlace<V>(chain: seq<Entry<V>>, j: nat)
    requires j <= |chain|
    ensures (EntryAt(chain, j) == null <==> j == |chain|) && (j < |chain| ==> EntryAt(chain, j) == chain[j])
  {}

  lemma DistinctFrom<V>(chains: Chains<V>, i: nat, j: nat)
    requires Distinct(chains) && i < |chains| && j < |chains[i]|
    ensures forall k | j < k < |chains[i]| :: chains[i][k] != chains[i][j]
    ensures forall b, k | i < b < |chains| && 0 <= k < |chains[b]| :: chains[b][k] != chains[i][j]
  {}

  lemma WithinAt<V>(chain: seq<Entry<V>>, repr: set<object>, j: nat)
    requires Within(chain, repr) && j < |chain|
    ensures chain[j] in repr
  {}

  /** After one entry has moved, the entries that are still to move are apart from the new chains. */
  lemma ApartNext<V>(chains: Chains<V>, newChains: Chains<V>, i: nat, j: nat, hv: nat)
    requires Distinct(chains) && i < |chains| && j < |chains[i]| && hv < |newChains| && Apart(newChains, chains[i][j..])
    requires forall b | i < b < |chains| :: Apart(newChains, chains[b])
    ensures var moved := newChains[hv := [chains[i][j]] + newChains[hv]];
      Apart(moved, chains[i][j + 1..]) && forall b | i < b < |chains| :: Apart(moved, chains[b])
  {
    var moved := newChains[hv := [chains[i][j]] + newChains[hv]];
    var rest := chains[i][j + 1..];
    forall b, k, l | 0 <= b < |moved| && 0 <= k < |moved[b]| && 0 <= l < |rest| ensures moved[b][k] != rest[l] {
      assert rest[l] == chains[i][j + 1 + l] == chains[i][j..][l + 1];
    }
    forall c | i < c < |chains| ensures Apart(moved, chains[c]) {
      assert Apart(newChains, chains[c]);
    }
  }

  lemma DistinctPrepend<V>(chains: Chains<V>, b: nat, he: Entry<V>)
    requires Distinct(chains) && b < |chains|
    requires forall i, j | 0 <= i < |chains| && 0 <= j < |chains[i]| :: chains[i][j] != he
    ensures Distinct(chains[b := [he] + chains[b]])
  {}

  lemma LinkedPrepend<V>(buckets: array<Entry?<V>>, chains: Chains<V>, pairs: seq<seq<Pair<V>>>, repr: set<object>,
                         b: nat, he: Entry<V>, p: Pair<V>)
    requires |chains| == |pairs| == buckets.Length && b < |chains|
    requires forall i | 0 <= i < |chains| :: Within(chains[i], repr) && (i != b ==> ChainLinked(buckets[i], chains[i], pairs[i]))
    requires ChainLinked(buckets[b], [he] + chains[b], [p] + pairs[b]) && Distinct(chains[b := [he] + chains[b]])
    ensures Linked(buckets, chains[b := [he] + chains[b]], pairs[b := [p] + pairs[b]], repr + {he})
  {
    hide ChainLinked, Distinct;
  }

  lemma LinkedCut<V>(buckets: array<Entry?<V>>, chains: Chains<V>, pairs: seq<seq<Pair<V>>>, repr: set<object>,
                     b: nat, chain: seq<Entry<V>>, ps: seq<Pair<V>>)
    requires |chains| == |pairs| == buckets.Length && b < |chains| && Within(chain, repr)
    requires forall i | 0 <= i < |chains| :: Within(chains[i], repr) && (i != b ==> ChainLinked(buckets[i], chains[i], pairs[i]))
    requires ChainLinked(buckets[b], chain, ps) && Distinct(chains[b := chain])
    ensures Linked(buckets, chains[b := chain], pairs[b := ps], repr)
  {
    hide ChainLinked, Distinct, Within;
  }

  lemma PrependLinked<V>(head: Entry?<V>, chain: seq<Entry<V>>, pairs: seq<Pair<V>>, he: Entry<V>, p: Pair<V>)
    requires ChainLinked(head, chain, pairs) && he.next == head && he.key == p.key && he.data == p.data
    ensures ChainLinked(he, [he] + chain, [p] + pairs)
  {
    forall j | 0 <= j < |chain| + 1 ensures EntryLinked([he] + chain, j, ([p] + pairs)[j]) {
      if j > 0 {
        assert EntryLinked(chain, j - 1, pairs[j - 1]);
      }
    }
  }

  lemma {:induction false} FindInIs<V>(flags: Flags, ps: seq<Pair<V>>, k: Key, j: nat)
    requires j <= |ps| && forall i | 0 <= i < j :: !KeyEqual(flags, k, ps[i].key)
    requires j < |ps| ==> KeyEqual(flags, k, ps[j].key)
    ensures FindIn(flags, ps, k) == j
  {
    var f := FindIn(flags, ps, k);
    assert !(f < j);
  }

  /** The doubling loop that rounds a size up to a power of two. */
  method ComputeHashSize(s: nat) returns (i: nat)
    ensures i == HashSize(s) > 0
  {
    i := 1;
    while i < s
      invariant i > 0 && Double(i, s) == HashSize(s)
      decreases s - i
    {
      i := 2 * i;
    }
  }

  lemma FlattenNext<V>(pairs: seq<seq<Pair<V>>>, i: nat)
    requires i < |pairs|
    ensures Flatten(pairs[..i + 1]) == Flatten(pairs[..i]) + pairs[i]
  {
    assert pairs[..i + 1][..i] == pairs[..i];
  }

  lemma RedistributeNext<V>(cfg: Config, ps: seq<Pair<V>>, qs: seq<Pair<V>>, j: nat, n: nat)
    requires j < |qs| && n > 0
    ensures
      var r := Redistribute(cfg, ps + qs[..j], n);
      var b := Bucket(cfg, qs[j].key, n);
      Redistribute(cfg, ps + qs[..j + 1], n) == r[b := [qs[j]] + r[b]]
  {
    var all := ps + qs[..j + 1];
    assert all[..|all| - 1] == ps + qs[..j] && all[|all| - 1] == qs[j];
  }

  class HashTable<V(!new)> {
    const cfg: Config
    var numBuckets: nat
    var entries: nat
    var buckets: array<Entry?<V>>
    var resizedCount: nat

    ghost var chains: Chains<V>
    ghost var pairs: seq<seq<Pair<V>>>
    ghost var nodes: set<object>
    ghost var Repr: set<object>
    /** Buckets scanned and entries relinked by all resizes so far. */
    ghost var work: nat

    ghost predicate Valid()
      reads this, Repr
      ensures Valid() ==> this in Repr
    {
      && Repr == {this, buckets} + nodes && this !in nodes && buckets !in nodes
      && numBuckets == buckets.Length > 0
      && Linked(buckets, chains, pairs, nodes)
      && entries == Entries(Model())
    }

    /** The table as a value. */
    ghost function Model(): Table<V>
      reads this
    {
      Table(pairs, resizedCount)
    }

    constructor (size: nat, cfg: Config)
      ensures Valid() && fresh(Repr) && this.cfg == cfg && work == 0
      ensures Model() == New(size)
    {
      this.cfg := cfg;
      var n := ComputeHashSize(size);
      var bs := new Entry?<V>[n](_ => null);
      numBuckets, entries, resizedCount := n, 0, 0;
      buckets := bs;
      chains, pairs, work := seq(n, _ => []), EmptyChains(n), 0;
      nodes, Repr := {}, {this, bs};
      new;
      FlattenNothing<V>(n);
    }

    lemma ValidFacts(b: nat)
      requires Valid()
      ensures this in Repr && buckets in Repr && numBuckets == |pairs| == |chains| == buckets.Length > 0
      ensures entries == Entries(Model())
      ensures b < numBuckets ==> |chains[b]| == |pairs[b]| && forall j | 0 <= j < |chains[b]| :: chains[b][j] in Repr
    {
      assert b < numBuckets ==> ChainLinked(buckets[b], chains[b], pairs[b]) && Within(chains[b], nodes);
    }

    /** Walks a chain for a key. */
    method FindEntry(b: nat, key: Key) returns (he: Entry?<V>, ghost j: nat)
      requires Valid() && b < numBuckets
      ensures j == FindIn(cfg.flags, pairs[b], key) && j <= |chains[b]| && he == EntryAt(chains[b], j)
    {
      he, j := buckets[b], 0;
      assert ChainLinked(buckets[b], chains[b], pairs[b]);
      while he != null && !KeyEqual(cfg.flags, key, he.key)
        invariant j <= |chains[b]| && he == EntryAt(chains[b], j)
        invariant forall i | 0 <= i < j :: !KeyEqual(cfg.flags, key, pairs[b][i].key)
        decreases |chains[b]| - j
      {
        assert EntryLinked(chains[b], j, pairs[b][j]);
        he, j := he.next, j + 1;
      }
      assert j < |chains[b]| ==> EntryLinked(chains[b], j, pairs[b][j]);
      FindInIs(cfg.flags, pairs[b], key, j);
    }

    method GetData(key: Key) returns (r: Option<V>)
      requires Valid()
      ensures r == Get(cfg, Model(), key)
    {
      var b := Bucket(cfg, key, numBuckets);
      var he, j := FindEntry(b, key);
      assert ChainLinked(buckets[b], chains[b], pairs[b]);
      assert j < |chains[b]| ==> EntryLinked(chains[b], j, pairs[b][j]);
      r := if he == null then None else Some(he.data);
    }

    /** Stores the data under the key; `old` is what was there before. */
    method PutData(key: Key, data: V) returns (added: bool, previous: Option<V>)
      requires Valid()
      modifies Repr
      ensures Valid() && fresh(Repr - old(Repr))
      ensures Model() == Put(cfg, old(Model()), key, data)
      ensures previous == Get(cfg, old(Model()), key) && added == previous.None?
      ensures work == old(work) + Work(cfg, old(Model()), PutOp(key, data))
    {
      ValidFacts(Bucket(cfg, key, numBuckets));
      StoreEntries(cfg, Model(), key, data);
      hide HashTable.Valid, Rehash, RehashWork, Entries;
      var b := Bucket(cfg, key, numBuckets);
      var he, j := FindEntry(b, key);
      if he != null {
        added := false;
        var d := ReplaceData(he, b, j, data);
        previous := Some(d);
      } else {
        added, previous := true, None;
        AddEntry(b, key, data);
        assert Model() == Store(cfg, old(Model()), key, data);
        if !cfg.flags.frozen && 4 * entries > 3 * numBuckets {
          var _ := DoRehash();
        }
      }
    }

    /** The count of entries, and the ghost state, follow a change of one chain in the heap. */
    method Follow(n: nat, ghost b: nat, ghost chain: seq<Entry<V>>, ghost ps: seq<Pair<V>>, ghost nodes': set<object>)
      requires |chains| == |pairs| == buckets.Length == numBuckets && b < numBuckets
      requires Repr == {this, buckets} + nodes && this !in nodes' && buckets !in nodes'
      requires Linked(buckets, chains[b := chain], pairs[b := ps], nodes')
      requires Entries(Table(pairs[b := ps], resizedCount)) == n
      modifies this`entries, this`chains, this`pairs, this`nodes, this`Repr
      ensures Valid() && entries == n && Repr == {this, buckets} + nodes'
      ensures Model() == old(Model()).(chains := old(pairs)[b := ps])
    {
      hide Linked, Entries;
      entries := n;
      chains, pairs := chains[b := chain], pairs[b := ps];
      nodes, Repr := nodes', {this, buckets} + nodes';
    }

    /** Overwrites the data of an entry. */
    method ReplaceData(he: Entry<V>, ghost b: nat, ghost j: nat, data: V) returns (previous: V)
      requires Valid() && b < numBuckets && j < |chains[b]| == |pairs[b]| && he == chains[b][j]
      modifies this, he
      ensures Valid() && Repr == old(Repr) && work == old(work) && previous == old(pairs)[b][j].data
      ensures Model() == old(Model()).(chains := old(pairs)[b := old(pairs)[b][j := Pair(old(pairs)[b][j].key, data)]])
    {
      hide HashTable.Valid, Linked, ChainLinked, Entries, Flatten, Distinct, Within;
      ReplaceFacts(b, j, data);
      previous := he.data;
      OverwriteData(he, b, j, data);
      assert chains[b := chains[b]] == chains;
      Follow(entries, b, chains[b], pairs[b][j := Pair(pairs[b][j].key, data)], nodes);
    }

    lemma ReplaceFacts(b: nat, j: nat, data: V)
      requires Valid() && b < numBuckets && j < |chains[b]| == |pairs[b]|
      ensures |chains| == |pairs| == buckets.Length == numBuckets && Repr == {this, buckets} + nodes && this !in nodes && buckets !in nodes
      ensures chains[b][j] in nodes && chains[b][j].data == pairs[b][j].data
      ensures Entries(Table(pairs[b := pairs[b][j := Pair(pairs[b][j].key, data)]], resizedCount)) == entries
    {
      FlattenUpdate(pairs, b, pairs[b][j := Pair(pairs[b][j].key, data)]);
      assert Within(chains[b], nodes) && ChainLinked(buckets[b], chains[b], pairs[b]) && EntryLinked(chains[b], j, pairs[b][j]);
    }

    /** Overwrites the data in the heap. */
    method OverwriteData(he: Entry<V>, ghost b: nat, ghost j: nat, data: V)
      requires Valid() && b < numBuckets && j < |chains[b]| == |pairs[b]| && he == chains[b][j]
      modifies he
      ensures Linked(buckets, chains, pairs[b := pairs[b][j := Pair(pairs[b][j].key, data)]], nodes)
    {
      ghost var ps := pairs[b][j := Pair(pairs[b][j].key, data)];
      assert ChainLinked(buckets[b], chains[b], pairs[b]);
      assert forall k | 0 <= k < |chains[b]| :: EntryLinked(chains[b], k, pairs[b][k]);
      assert forall i, k | 0 <= i < |chains| && i != b && 0 <= k < |chains[i]| :: chains[i][k] != he;
      assert Distinct(chains) && forall i | 0 <= i < |chains| :: Within(chains[i], nodes);
      assert buckets[b] == EntryAt(chains[b], 0);
      hide ChainLinked, Distinct, Within, Entries, Flatten;
      label L:
      he.data := data;
      forall i | 0 <= i < |chains| && i != b ensures ChainLinked(buckets[i], chains[i], pairs[i]) {
        assert old@L(ChainLinked(buckets[i], chains[i], pairs[i]));
      }
      forall k | 0 <= k < |chains[b]| ensures EntryLinked(chains[b], k, ps[k]) {
        assert old@L(EntryLinked(chains[b], k, pairs[b][k]));
      }
      assert buckets[b] == EntryAt(chains[b], 0);
      ChainOf(buckets[b], chains[b], ps);
    }

    /** Links a new entry at the head of its chain. */
    method AddEntry(b: nat, key: Key, data: V)
      requires Valid() && b < numBuckets
      modifies this, buckets
      ensures Valid() && fresh(Repr - old(Repr)) && work == old(work)
      ensures Model() == old(Model()).(chains := old(pairs)[b := [Pair(key, data)] + old(pairs)[b]])
    {
      hide HashTable.Valid, Linked, ChainLinked, Entries, Flatten, Distinct, Within;
      ValidFacts(b);
      var he := new Entry(key, data, buckets[b]);
      ghost var p := Pair(key, data);
      AddFacts(b, he, p);
      LinkHead(he, b, p);
      LinkedPrepend(buckets, chains, pairs, nodes, b, he, p);
      Follow(entries + 1, b, [he] + chains[b], [p] + pairs[b], nodes + {he});
    }

    lemma AddFacts(b: nat, he: Entry<V>, p: Pair<V>)
      requires Valid() && b < numBuckets && he !in Repr
      ensures |chains| == |pairs| == buckets.Length == numBuckets && Repr == {this, buckets} + nodes && this !in nodes && buckets !in nodes
      ensures forall i | 0 <= i < numBuckets :: Within(chains[i], nodes)
      ensures Distinct(chains[b := [he] + chains[b]])
      ensures Entries(Table(pairs[b := [p] + pairs[b]], resizedCount)) == entries + 1
    {
      DistinctPrepend(chains, b, he);
      FlattenUpdate(pairs, b, [p] + pairs[b]);
    }

    /** Puts a new entry before the head of a chain. */
    method LinkHead(he: Entry<V>, b: nat, ghost p: Pair<V>)
      requires Valid() && b < numBuckets && he !in Repr && he.next == buckets[b] && he.key == p.key && he.data == p.data
      modifies buckets
      ensures forall i | 0 <= i < numBuckets && i != b :: ChainLinked(buckets[i], chains[i], pairs[i])
      ensures ChainLinked(buckets[b], [he] + chains[b], [p] + pairs[b])
    {
      assert ChainLinked(buckets[b], chains[b], pairs[b]);
      PrependLinked(buckets[b], chains[b], pairs[b], he, p);
      hide ChainLinked, Distinct, Within, Entries, Flatten;
      label L:
      buckets[b] := he;
      forall i | 0 <= i < numBuckets && i != b ensures ChainLinked(buckets[i], chains[i], pairs[i]) {
        assert old@L(ChainLinked(buckets[i], chains[i], pairs[i]));
      }
    }

    /** The entries before place (`i`, `j`) have moved to the new chains; the others are still linked as before. */
    ghost predicate Moving(newBuckets: array<Entry?<V>>, newChains: Chains<V>, newPairs: seq<seq<Pair<V>>>, i: nat, j: nat)
      reads this, buckets, newBuckets, nodes
    {
      && this !in nodes && buckets !in nodes && newBuckets !in nodes && newBuckets != buckets && newBuckets.Length > 0
      && |chains| == |pairs| == buckets.Length == numBuckets
      && Distinct(chains) && (forall b | 0 <= b < numBuckets :: Within(chains[b], nodes) && |chains[b]| == |pairs[b]|)
      && Linked(newBuckets, newChains, newPairs, nodes)
      && i <= numBuckets
      && (i == numBuckets ==> j == 0)
      && (i < numBuckets ==> j <= |chains[i]| && Apart(newChains, chains[i][j..]) && LinkedFrom(chains[i], pairs[i], j))
      && (i < numBuckets && j == 0 ==> buckets[i] == EntryAt(chains[i], 0))
      && newPairs == Redistribute(cfg, Flatten(pairs[..i]) + if i < numBuckets then pairs[i][..j] else [], newBuckets.Length)
      && forall b | i < b < numBuckets :: ChainLinked(buckets[b], chains[b], pairs[b]) && Apart(newChains, chains[b])
    }

    lemma MovingStarts(newBuckets: array<Entry?<V>>, newChains: Chains<V>, newPairs: seq<seq<Pair<V>>>)
      requires Valid() && newBuckets !in Repr && newBuckets.Length > 0 && newPairs == EmptyChains(newBuckets.Length)
      requires |newChains| == newBuckets.Length && forall b | 0 <= b < |newChains| :: newChains[b] == [] && newBuckets[b] == null
      ensures Moving(newBuckets, newChains, newPairs, 0, 0)
    {
      assert pairs[..0] == [] && pairs[0][..0] == [] && chains[0][0..] == chains[0];
      assert ChainLinked(buckets[0], chains[0], pairs[0]);
    }

    lemma MovingFacts(newBuckets: array<Entry?<V>>, newChains: Chains<V>, newPairs: seq<seq<Pair<V>>>, i: nat, j: nat)
      requires Moving(newBuckets, newChains, newPairs, i, j)
      ensures |chains| == |pairs| == buckets.Length == numBuckets && i <= numBuckets
      ensures this !in nodes && buckets !in nodes && newBuckets != buckets
      ensures i < numBuckets ==> |chains[i]| == |pairs[i]| && (j < |chains[i]| ==> chains[i][j] in nodes)
      ensures i < numBuckets && j == 0 ==> buckets[i] == EntryAt(chains[i], 0)
    {
      assert i < numBuckets ==> Within(chains[i], nodes);
    }

    lemma MovingNextChain(newBuckets: array<Entry?<V>>, newChains: Chains<V>, newPairs: seq<seq<Pair<V>>>, i: nat, j: nat)
      requires Moving(newBuckets, newChains, newPairs, i, j) && i < numBuckets && j == |chains[i]|
      ensures Moving(newBuckets, newChains, newPairs, i + 1, 0)
    {
      FlattenNext(pairs, i);
      assert pairs[i][..j] == pairs[i];
      var ps := Flatten(pairs[..i + 1]);
      assert ps + (if i + 1 < numBuckets then pairs[i + 1][..0] else []) == ps;
      if i + 1 < numBuckets {
        assert ChainLinked(buckets[i + 1], chains[i + 1], pairs[i + 1]) && chains[i + 1][0..] == chains[i + 1];
      }
    }

    /** Takes the next entry off its old chain, and links it at the head of its new one. */
    method MoveEntry(he: Entry<V>, newBuckets: array<Entry?<V>>, ghost newChains: Chains<V>, ghost newPairs: seq<seq<Pair<V>>>,
                     ghost i: nat, ghost j: nat)
      returns (nhe: Entry?<V>, ghost newChains': Chains<V>, ghost newPairs': seq<seq<Pair<V>>>)
      requires Moving(newBuckets, newChains, newPairs, i, j) && i < numBuckets && j < |chains[i]| && he == chains[i][j]
      modifies he`next, newBuckets
      ensures Moving(newBuckets, newChains', newPairs', i, j + 1) && nhe == EntryAt(chains[i], j + 1)
    {
      nhe := he.next;
      var hv := Bucket(cfg, he.key, newBuckets.Length);
      assert EntryLinked(chains[i], j, pairs[i][j]);
      WithinAt(chains[i], nodes, j);
      RedistributeNext(cfg, Flatten(pairs[..i]), pairs[i], j, newBuckets.Length);
      ApartHead(newChains, chains[i], j);
      ApartNext(chains, newChains, i, j, hv);
      DistinctFrom(chains, i, j);
      newChains' := newChains[hv := [chains[i][j]] + newChains[hv]];
      newPairs' := newPairs[hv := [pairs[i][j]] + newPairs[hv]];
      hide ChainLinked, Flatten, Linked, Apart, Distinct, Redistribute, Within;
      RelinkEntry(he, hv, newBuckets, newChains, newPairs, pairs[i][j], nodes);
    }

    /** Links an entry at the head of a chain it is not in. */
    method RelinkEntry(he: Entry<V>, b: nat, newBuckets: array<Entry?<V>>, ghost newChains: Chains<V>, ghost newPairs: seq<seq<Pair<V>>>,
                       ghost p: Pair<V>, ghost repr: set<object>)
      requires b < newBuckets.Length && Linked(newBuckets, newChains, newPairs, repr) && newBuckets !in repr
      requires he in repr && he.key == p.key && he.data == p.data && Apart(newChains, [he])
      modifies he`next, newBuckets
      ensures Linked(newBuckets, newChains[b := [he] + newChains[b]], newPairs[b := [p] + newPairs[b]], repr)
    {
      assert forall c | 0 <= c < |newChains| :: ChainLinked(newBuckets[c], newChains[c], newPairs[c]);
      assert forall c, k | 0 <= c < |newChains| && 0 <= k < |newChains[c]| :: newChains[c][k] != [he][0];
      DistinctPrepend(newChains, b, he);
      hide Distinct, ChainLinked;
      he.next := newBuckets[b];
      assert forall c | 0 <= c < |newChains| :: ChainLinked(newBuckets[c], newChains[c], newPairs[c]);
      PrependLinked(newBuckets[b], newChains[b], newPairs[b], he, p);
      newBuckets[b] := he;
    }

    /** With all entries moved, the new chains are those of the resized table. */
    lemma MovedAll(newBuckets: array<Entry?<V>>, newChains: Chains<V>, newPairs: seq<seq<Pair<V>>>)
      requires Moving(newBuckets, newChains, newPairs, numBuckets, 0) && entries == Entries(Model())
      requires newBuckets.Length == HashSize(2 * entries) != numBuckets
      ensures Linked(newBuckets, newChains, newPairs, nodes) && this !in nodes && newBuckets !in nodes
      ensures Rehash(cfg, Model()) == Table(newPairs, (resizedCount + 1) % UINT_RANGE)
      ensures Entries(Table(newPairs, (resizedCount + 1) % UINT_RANGE)) == entries
    {
      assert pairs[..numBuckets] == pairs && Flatten(pairs) + [] == Flatten(pairs);
      RedistributeEntries(cfg, Flatten(pairs), newBuckets.Length);
    }

    /** The new array takes the place of the old one. */
    method Install(newBuckets: array<Entry?<V>>, ghost newChains: Chains<V>, ghost newPairs: seq<seq<Pair<V>>>, ghost w: nat)
      requires Linked(newBuckets, newChains, newPairs, nodes) && this !in nodes && newBuckets !in nodes
      requires Entries(Table(newPairs, (resizedCount + 1) % UINT_RANGE)) == entries && newBuckets.Length > 0
      modifies this
      ensures Valid() && Repr == {this, newBuckets} + old(nodes) && work == old(work) + w
      ensures Model() == Table(newPairs, (old(resizedCount) + 1) % UINT_RANGE)
    {
      hide Linked, Entries;
      numBuckets, buckets, chains, pairs := newBuckets.Length, newBuckets, newChains, newPairs;
      resizedCount := (resizedCount + 1) % UINT_RANGE;
      Repr, work := {this, newBuckets} + nodes, work + w;
    }

    /** Relinks the entries of one chain, from its head. */
    method MoveChain(i: nat, newBuckets: array<Entry?<V>>, ghost newChains: Chains<V>, ghost newPairs: seq<seq<Pair<V>>>)
      returns (ghost newChains': Chains<V>, ghost newPairs': seq<seq<Pair<V>>>, ghost moved: nat)
      requires Moving(newBuckets, newChains, newPairs, i, 0) && i < numBuckets
      modifies nodes, newBuckets
      ensures Moving(newBuckets, newChains', newPairs', i + 1, 0) && moved == |pairs[i]|
    {
      hide *;
      newChains', newPairs' := newChains, newPairs;
      MovingFacts(newBuckets, newChains, newPairs, i, 0);
      var he := buckets[i];
      ghost var j := 0;
      while he != null
        invariant Moving(newBuckets, newChains', newPairs', i, j) && j <= |chains[i]| && he == EntryAt(chains[i], j)
        decreases |chains[i]| - j
        modifies nodes, newBuckets
      {
        MovingFacts(newBuckets, newChains', newPairs', i, j);
        EntryAtPlace(chains[i], j);
        he, newChains', newPairs' := MoveEntry(he, newBuckets, newChains', newPairs', i, j);
        j := j + 1;
      }
      EntryAtPlace(chains[i], j);
      MovingNextChain(newBuckets, newChains', newPairs', i, j);
      moved := j;
    }

    /** Relinks every entry, chain by chain; `w` is the number of buckets scanned and entries moved. */
    method MoveAll(newBuckets: array<Entry?<V>>, ghost newChains: Chains<V>, ghost newPairs: seq<seq<Pair<V>>>)
      returns (ghost newChains': Chains<V>, ghost newPairs': seq<seq<Pair<V>>>, ghost w: nat)
      requires Moving(newBuckets, newChains, newPairs, 0, 0)
      modifies nodes, newBuckets
      ensures Moving(newBuckets, newChains', newPairs', numBuckets, 0) && w == numBuckets + |Flatten(pairs)|
    {
      assert pairs[..0] == [] && Flatten(pairs[..0]) == [];
      hide *;
      newChains', newPairs', w := newChains, newPairs, 0;
      MovingFacts(newBuckets, newChains, newPairs, 0, 0);
      assert pairs[..|pairs|] == pairs;
      var i := 0;
      while i < numBuckets
        invariant i <= numBuckets && Moving(newBuckets, newChains', newPairs', i, 0) && w == i + |Flatten(pairs[..i])|
        modifies nodes, newBuckets
      {
        ghost var moved;
        newChains', newPairs', moved := MoveChain(i, newBuckets, newChains', newPairs');
        w := w + 1 + moved;
        FlattenNext(pairs, i);
        i := i + 1;
      }
    }

    /**
     * Rebuilds the bucket array for the number of entries, relinking every entry in place; `changed` tells
     * whether there was anything to do.
     */
    method DoRehash() returns (changed: bool)
      requires Valid()
      modifies Repr
      ensures Valid() && fresh(Repr - old(Repr))
      ensures Model() == Rehash(cfg, old(Model())) && changed == (HashSize(2 * old(entries)) != old(numBuckets))
      ensures work == old(work) + RehashWork(old(Model()))
    {
      var newSize := ComputeHashSize(2 * entries);
      if newSize == numBuckets {
        return false;
      }
      var newBuckets := new Entry?<V>[newSize](_ => null);
      ghost var newChains: Chains<V>, newPairs, w := seq(newSize, _ => []), EmptyChains<V>(newSize), 0;
      MovingStarts(newBuckets, newChains, newPairs);
      hide Moving, Linked;
      newChains, newPairs, w := MoveAll(newBuckets, newChains, newPairs);
      MovedAll(newBuckets, newChains, newPairs);
      Install(newBuckets, newChains, newPairs, w);
      return true;
    }

    /** Unlinks the entry of a key from its chain; `r` is the data it had. */
    method DeleteData(key: Key) returns (r: Option<V>)
      requires Valid()
      modifies Repr
      ensures Valid() && fresh(Repr - old(Repr))
      ensures Model() == Delete(cfg, old(Model()), key) && r == Get(cfg, old(Model()), key)
      ensures work == old(work) + Work(cfg, old(Model()), DeleteOp(key))
    {
      ValidFacts(Bucket(cfg, key, numBuckets));
      UnlinkEntries(cfg, Model(), key);
      hide HashTable.Valid, Rehash, RehashWork, Entries;
      var b := Bucket(cfg, key, numBuckets);
      var hep, he, j := FindWithPrev(b, key);
      if he == null {
        r := None;
      } else {
        r := Some(he.data);
        UnlinkEntry(hep, he, b, j);
        if MayShrink(cfg, resizedCount) && 4 * entries < numBuckets {
          var _ := DoRehash();
        }
      }
    }

    /** Walks a chain for a key, one entry behind. */
    method FindWithPrev(b: nat, key: Key) returns (hep: Entry?<V>, he: Entry?<V>, ghost j: nat)
      requires Valid() && b < numBuckets
      ensures j == FindIn(cfg.flags, pairs[b], key) && j <= |chains[b]| && he == EntryAt(chains[b], j)
      ensures hep == if j == 0 then null else chains[b][j - 1]
      ensures he != null ==> he.data == pairs[b][j].data
    {
      hep, he, j := null, buckets[b], 0;
      assert ChainLinked(buckets[b], chains[b], pairs[b]) && |chains[b]| == |pairs[b]|;
      while he != null && !KeyEqual(cfg.flags, key, he.key)
        invariant j <= |chains[b]| && he == EntryAt(chains[b], j)
        invariant hep == if j == 0 then null else chains[b][j - 1]
        invariant forall i | 0 <= i < j :: !KeyEqual(cfg.flags, key, pairs[b][i].key)
        decreases |chains[b]| - j
      {
        assert EntryLinked(chains[b], j, pairs[b][j]);
        hep, he, j := he, he.next, j + 1;
      }
      assert j < |chains[b]| ==> EntryLinked(chains[b], j, pairs[b][j]);
      FindInIs(cfg.flags, pairs[b], key, j);
    }

    /** Takes the entry at place `j` out of its chain; `hep` is the entry before it. */
    method UnlinkEntry(hep: Entry?<V>, he: Entry<V>, b: nat, ghost j: nat)
      requires Valid() && b < numBuckets && j < |chains[b]| == |pairs[b]| && he == chains[b][j]
      requires hep == if j == 0 then null else chains[b][j - 1]
      modifies Repr
      ensures Valid() && fresh(Repr - old(Repr)) && work == old(work) && entries == old(entries) - 1
      ensures Model() == old(Model()).(chains := old(pairs)[b := old(pairs)[b][..j] + old(pairs)[b][j + 1..]])
    {
      hide HashTable.Valid, Linked, ChainLinked, Entries, Flatten, Distinct, Within;
      CutFacts(b, j);
      ghost var ps, chain := pairs[b][..j] + pairs[b][j + 1..], chains[b][..j] + chains[b][j + 1..];
      CutChain(hep, he, b, j);
      LinkedCut(buckets, chains, pairs, nodes, b, chain, ps);
      Follow(entries - 1, b, chain, ps, nodes);
    }

    lemma CutFacts(b: nat, j: nat)
      requires Valid() && b < numBuckets && j < |chains[b]| == |pairs[b]|
      ensures |chains| == |pairs| == buckets.Length == numBuckets && Repr == {this, buckets} + nodes && this !in nodes && buckets !in nodes
      ensures forall i | 0 <= i < numBuckets :: Within(chains[i], nodes)
      ensures Within(chains[b][..j] + chains[b][j + 1..], nodes) && Distinct(chains[b := chains[b][..j] + chains[b][j + 1..]])
      ensures Entries(Table(pairs[b := pairs[b][..j] + pairs[b][j + 1..]], resizedCount)) == entries - 1
    {
      FlattenUpdate(pairs, b, pairs[b][..j] + pairs[b][j + 1..]);
      DistinctCut(chains, b, j);
      var cut := chains[b][..j] + chains[b][j + 1..];
      assert Within(chains[b], nodes);
      forall k | 0 <= k < |cut| ensures cut[k] in nodes {
        CutAt(chains[b], j, k);
      }
    }

    /** Leads the chain past one entry. */
    method CutChain(hep: Entry?<V>, he: Entry<V>, b: nat, ghost j: nat)
      requires Valid() && b < numBuckets && j < |chains[b]| == |pairs[b]| && he == chains[b][j]
      requires hep == if j == 0 then null else chains[b][j - 1]
      modifies buckets, nodes
      ensures forall i | 0 <= i < numBuckets && i != b :: ChainLinked(buckets[i], chains[i], pairs[i])
      ensures ChainLinked(buckets[b], chains[b][..j] + chains[b][j + 1..], pairs[b][..j] + pairs[b][j + 1..])
    {
      ghost var ps, chain := pairs[b][..j] + pairs[b][j + 1..], chains[b][..j] + chains[b][j + 1..];
      assert ChainLinked(buckets[b], chains[b], pairs[b]);
      assert forall k | 0 <= k < |chains[b]| :: EntryLinked(chains[b], k, pairs[b][k]);
      assert hep != null ==> forall i, k | 0 <= i < numBuckets && i != b && 0 <= k < |chains[i]| :: chains[i][k] != hep;
      assert hep != null ==> forall k | 0 <= k < |chains[b]| && k != j - 1 :: chains[b][k] != hep;
      hide Distinct, Linked, Entries, Flatten, ChainLinked;
      label L:
      if hep != null {
        hep.next := he.next;
      } else {
        buckets[b] := he.next;
      }
      forall i | 0 <= i < numBuckets && i != b ensures ChainLinked(buckets[i], chains[i], pairs[i]) {
        assert old(ChainLinked(buckets[i], chains[i], pairs[i]));
      }
      forall k | 0 <= k < |chain| ensures EntryLinked(chain, k, ps[k]) {
        var o := if k < j then k else k + 1;
        CutAt(chains[b], j, k);
        CutAt(pairs[b], j, k);
        assert old@L(EntryLinked(chains[b], o, pairs[b][o])) && old@L(EntryLinked(chains[b], j, pairs[b][j]));
        assert EntryAt(chain, k + 1) == EntryAt(chains[b], if k + 1 < j then k + 1 else k + 2);
      }
      assert EntryAt(chain, 0) == EntryAt(chains[b], if 0 < j then 0 else 1);
      assert old@L(EntryLinked(chains[b], j, pairs[b][j]));
      ChainOf(buckets[b], chain, ps);
    }

    method Clear()
      requires Valid()
      modifies Repr
      ensures Valid() && fresh(Repr - old(Repr))
      ensures Model() == TableModel.Clear(cfg, old(Model()))
    {
      DropAll();
      hide Linked, Rehash, Entries;
      if MayShrink(cfg, resizedCount) && 4 * entries < numBuckets {
        var _ := DoRehash();
      }
    }

    /** Empties every bucket. */
    method DropAll()
      requires Valid()
      modifies Repr
      ensures Valid() && fresh(Repr - old(Repr))
      ensures entries == 0 && Model() == old(Model()).(chains := EmptyChains(old(numBuckets)))
    {
      for i := 0 to numBuckets
        invariant forall b | 0 <= b < i :: buckets[b] == null
        modifies buckets
      {
        buckets[i] := null;
      }
      FlattenNothing<V>(numBuckets);
      hide Flatten;
      entries := 0;
      chains, pairs := seq(numBuckets, _ => []), EmptyChains(numBuckets);
      nodes, Repr := {}, {this, buckets};
    }

    /** All keys, in bucket order, each chain from its head. */
    method KeysData() returns (keys: seq<Key>)
      requires Valid()
      ensures keys == KeysOf(Flatten(pairs))
    {
      keys := [];
      assert pairs[..0] == [] && KeysOf<V>([]) == [];
      for bucket := 0 to numBuckets
        invariant keys == KeysOf(Flatten(pairs[..bucket]))
      {
        var he := buckets[bucket];
        ghost var j := 0;
        ghost var before := Flatten(pairs[..bucket]);
        assert ChainLinked(buckets[bucket], chains[bucket], pairs[bucket]) && before + pairs[bucket][..0] == before;
        while he != null
          invariant j <= |chains[bucket]| == |pairs[bucket]| && he == EntryAt(chains[bucket], j)
          invariant keys == KeysOf(before + pairs[bucket][..j])
          decreases |chains[bucket]| - j
        {
          assert EntryLinked(chains[bucket], j, pairs[bucket][j]);
          assert before + pairs[bucket][..j + 1] == (before + pairs[bucket][..j]) + [pairs[bucket][j]];
          keys := keys + [he.key];
          he, j := he.next, j + 1;
        }
        FlattenNext(pairs, bucket);
        assert pairs[bucket][..j] == pairs[bucket];
      }
      assert pairs[..numBuckets] == pairs;
    }
  }

  function KeysOf<V>(ps: seq<Pair<V>>): (keys: seq<Key>)
    ensures |keys| == |ps|
  {
    seq(|ps|, i requires 0 <= i < |ps| => ps[i].key)
  }

  lemma DistinctCut<V>(chains: Chains<V>, b: nat, j: nat)
    requires Distinct(chains) && b < |chains| && j < |chains[b]|
    ensures Distinct(chains[b := chains[b][..j] + chains[b][j + 1..]])
  {
    var cut := chains[b][..j] + chains[b][j + 1..];
    assert forall k | 0 <= k < |cut| :: cut[k] == chains[b][if k < j then k else k + 1];
  }
}
