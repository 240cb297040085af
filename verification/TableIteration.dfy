/**
 * Iteration over an unchanged table gives every entry exactly once, in the order of `KeysData`
 * (lib/cfuhash.c). The two iterator fields of the table are kept in a cursor beside it.
 */
module TableIteration {
  import opened Wrappers
  import opened TableModel
  import opened HashTable

  const SIZE_RANGE := 0x1_0000_0000_0000_0000

  lemma {:induction false} FlattenAt<V>(pairs: seq<seq<Pair<V>>>, b: nat, j: nat)
    requires b < |pairs| && j < |pairs[b]|
    ensures |Flatten(pairs[..b])| + j < |Flatten(pairs)| && Flatten(pairs)[|Flatten(pairs[..b])| + j] == pairs[b][j]
  {
    var k := |pairs| - 1;
    if b < k {
      FlattenAt(pairs[..k], b, j);
      assert pairs[..k][..b] == pairs[..b];
    }
  }

  class Cursor<V(!new)> {
    const table: HashTable<V>
    var eachBucketIndex: nat
    var eachChainEntry: Entry?<V>
    /** How many entries the current iteration has given, and the place of the last in its chain. */
    ghost var visited: nat
    ghost var place: nat

    constructor (table: HashTable<V>)
      ensures this.table == table
    {
      this.table := table;
      eachBucketIndex, eachChainEntry := 0, null;
    }

    /** Between two steps of an iteration over an unchanged table. */
    ghost predicate Iterating()
      reads this, table, table.Repr
    {
      && table.Valid() && this !in table.Repr && table.numBuckets < SIZE_RANGE - 1
      && if eachChainEntry != null then AtEntry()
         else if eachBucketIndex == SIZE_RANGE - 1 then visited == 0
         else table.numBuckets <= eachBucketIndex < SIZE_RANGE && visited == Entries(table.Model())
    }

    /** The iterator stands at an entry, the last of those visited. */
    ghost predicate AtEntry()
      reads this, table
    {
      && eachBucketIndex < table.numBuckets == |table.chains| == |table.pairs| && place < |table.chains[eachBucketIndex]|
      && eachChainEntry == table.chains[eachBucketIndex][place]
      && visited == |Flatten(table.pairs[..eachBucketIndex])| + place + 1
    }

    /** Starts an iteration: the index becomes -1, which the next step wraps round to 0. */
    method EachData() returns (r: Option<Pair<V>>)
      requires table.Valid() && this !in table.Repr && table.numBuckets < SIZE_RANGE - 1
      modifies this
      ensures Iterating()
      ensures r == if Entries(table.Model()) > 0 then Some(Flatten(table.pairs)[0]) else None
      ensures Entries(table.Model()) > 0 ==> visited == 1
    {
      eachBucketIndex, eachChainEntry, visited := SIZE_RANGE - 1, null, 0;
      r := NextData();
    }

    /** The entry after the last one given; none when all have been given. */
    method NextData() returns (r: Option<Pair<V>>)
      requires Iterating()
      modifies this
      ensures Iterating()
      ensures r == if old(visited) < Entries(table.Model()) then Some(Flatten(table.pairs)[old(visited)]) else None
      ensures old(visited) < Entries(table.Model()) ==> visited == old(visited) + 1
    {
      hide Flatten, HashTable.Valid, Entries;
      Move();
      if eachChainEntry != null {
        StandsAt();
        visited := visited + 1;
        r := Some(Pair(eachChainEntry.key, eachChainEntry.data));
      } else {
        visited := if eachBucketIndex == SIZE_RANGE - 1 then 0 else visited;
        r := None;
      }
    }

    /** The iterator stands at an entry, and has visited only those before it. */
    ghost predicate BeforeEntry()
      reads this, table
    {
      && eachBucketIndex < table.numBuckets == |table.chains| == |table.pairs| && place < |table.chains[eachBucketIndex]|
      && eachChainEntry == table.chains[eachBucketIndex][place]
      && visited == |Flatten(table.pairs[..eachBucketIndex])| + place
    }

    lemma StandsAt()
      requires table.Valid() && BeforeEntry()
      ensures visited < Entries(table.Model()) == |Flatten(table.pairs)|
      ensures eachChainEntry != null && Flatten(table.pairs)[visited] == Pair(eachChainEntry.key, eachChainEntry.data)
    {
      EntryFacts(table, eachBucketIndex, place);
      FlattenAt(table.pairs, eachBucketIndex, place);
    }

    /** Moves the iterator to the next entry, or past the last bucket. */
    method Move()
      requires Iterating()
      modifies this`eachBucketIndex, this`eachChainEntry, this`place
      ensures eachChainEntry != null ==> BeforeEntry()
      ensures eachChainEntry == null ==>
        table.numBuckets <= eachBucketIndex < SIZE_RANGE && visited == Entries(table.Model())
    {
      HeadFacts(table, 0);
      if eachChainEntry != null {
        EntryFacts(table, eachBucketIndex, place);
      }
      if eachChainEntry != null && eachChainEntry.next != null {
        hide Flatten, HashTable.Valid;
        eachChainEntry, place := eachChainEntry.next, place + 1;
      } else {
        RankAfter();
        hide Flatten, HashTable.Valid;
        eachChainEntry := null;
        eachBucketIndex := (eachBucketIndex + 1) % SIZE_RANGE;
        EnterBucket();
      }
    }

    /** What has been visited when the next bucket is the one after the iterator's. */
    lemma RankAfter()
      requires Iterating()
      requires eachChainEntry != null ==> place + 1 == |table.chains[eachBucketIndex]|
      ensures RankAt((eachBucketIndex + 1) % SIZE_RANGE)
    {
      hide HashTable.Valid;
      HeadFacts(table, 0);
      assert table.pairs[..0] == [] && table.pairs[..table.numBuckets] == table.pairs;
      if eachChainEntry != null {
        EntryFacts(table, eachBucketIndex, place);
        FlattenNext(table.pairs, eachBucketIndex);
      }
    }

    /** All entries before bucket `b` have been visited, and no others. */
    ghost predicate RankAt(b: nat)
      reads this, table
    {
      && |table.pairs| == table.numBuckets
      && if b <= table.numBuckets then visited == |Flatten(table.pairs[..b])|
         else b < SIZE_RANGE && visited == Entries(table.Model())
    }

    /** Enters the first bucket from here on that has an entry. */
    method EnterBucket()
      requires table.Valid() && this !in table.Repr && table.numBuckets < SIZE_RANGE
      requires eachChainEntry == null && RankAt(eachBucketIndex)
      modifies this`eachBucketIndex, this`eachChainEntry, this`place
      ensures eachChainEntry != null ==> BeforeEntry()
      ensures eachChainEntry == null ==>
        table.numBuckets <= eachBucketIndex < SIZE_RANGE && visited == Entries(table.Model())
    {
      AdvanceBucket();
      HeadFacts(table, eachBucketIndex);
      assert table.pairs[..table.numBuckets] == table.pairs;
      hide HashTable.Valid, Flatten;
      if eachBucketIndex < table.numBuckets {
        eachChainEntry, place := table.buckets[eachBucketIndex], 0;
      }
    }

    /** Moves the index over empty buckets. */
    method AdvanceBucket()
      requires table.Valid() && this !in table.Repr && RankAt(eachBucketIndex)
      modifies this`eachBucketIndex
      ensures RankAt(eachBucketIndex) && (eachBucketIndex < table.numBuckets == table.buckets.Length ==> table.buckets[eachBucketIndex] != null)
    {
      HeadFacts(table, 0);
      while eachBucketIndex < table.numBuckets && table.buckets[eachBucketIndex] == null
        invariant RankAt(eachBucketIndex)
        decreases table.numBuckets - eachBucketIndex
      {
        HeadFacts(table, eachBucketIndex);
        FlattenNext(table.pairs, eachBucketIndex);
        eachBucketIndex := eachBucketIndex + 1;
      }
    }

    lemma ModelIs()
      ensures table.Model().chains == table.pairs && Entries(table.Model()) == |Flatten(table.pairs)|
    {}

    /** A whole iteration: `each` first, then `next` until it gives nothing. */
    method Walk() returns (seen: seq<Pair<V>>)
      requires table.Valid() && this !in table.Repr && table.numBuckets < SIZE_RANGE - 1
      modifies this
      ensures seen == Flatten(table.pairs)
    {
      hide *;
      seen := [];
      ghost var all, t := Flatten(table.pairs), table.Model();
      ModelIs();
      var r := EachData();
      while r.Some?
        invariant Iterating() && table.pairs == t.chains && table.Model() == t
        invariant |seen| <= |all| && seen == all[..|seen|]
        invariant r == if |seen| < |all| then Some(all[|seen|]) else None
        invariant |seen| < |all| ==> visited == |seen| + 1
        decreases |all| - |seen|
      {
        seen := seen + [r.value];
        r := NextData();
      }
    }
  }

  lemma HeadFacts<V(!new)>(t: HashTable<V>, b: nat)
    requires t.Valid()
    ensures |t.chains| == |t.pairs| == t.buckets.Length == t.numBuckets > 0
    ensures b < t.numBuckets ==> |t.chains[b]| == |t.pairs[b]| && t.buckets[b] == EntryAt(t.chains[b], 0)
  {
    assert b < t.numBuckets ==> ChainLinked(t.buckets[b], t.chains[b], t.pairs[b]);
  }

  lemma EntryFacts<V(!new)>(t: HashTable<V>, b: nat, j: nat)
    requires t.Valid() && b < |t.chains| && j < |t.chains[b]|
    ensures |t.chains| == |t.pairs| == t.numBuckets && |t.chains[b]| == |t.pairs[b]|
    ensures t.chains[b][j].next == EntryAt(t.chains[b], j + 1)
    ensures Pair(t.chains[b][j].key, t.chains[b][j].data) == t.pairs[b][j]
  {
    assert ChainLinked(t.buckets[b], t.chains[b], t.pairs[b]) && EntryLinked(t.chains[b], j, t.pairs[b][j]);
  }
}
