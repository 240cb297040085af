/**
 * The chained hash table of lib/cfuhash.c as a value: the chains in bucket order, each from its
 * head, and the operations on them. The class HashTable is proved to compute these operations.
 */
module TableModel {
  import opened Wrappers

  /** The bytes of a key. A NULL key is the empty one: both have size 0 and hash to 0. */
  type Key = seq<char>

  datatype Pair<V> = Pair(key: Key, data: V)

  datatype Flags = Flags(ignoreCase: bool, frozen: bool, frozenUntilGrows: bool)

  /** What a table never changes: its hash function, arbitrary here, and its flags. */
  datatype Config = Config(hash: Key -> nat, flags: Flags)

  /** `resized` counts resizes in an unsigned int. */
  datatype Table<V> = Table(chains: seq<seq<Pair<V>>>, resized: nat)

  const UINT_RANGE := 0x1_0000_0000

  // ---------- Keys ----------

  function LowerChar(c: char): char {
    if 'A' <= c <= 'Z' then ((c as int) + 32) as char else c
  }

  function Lower(k: Key): (r: Key)
    ensures |r| == |k|
  {
    seq(|k|, i requires 0 <= i < |k| => LowerChar(k[i]))
  }

  /** The form in which a key is hashed. */
  function Canon(flags: Flags, k: Key): (r: Key)
    ensures |r| == |k|
  {
    if flags.ignoreCase then Lower(k) else k
  }

  /** `strncasecmp` finds no difference; it looks no further than a NUL. */
  predicate CaseEqual(a: Key, b: Key)
    requires |a| == |b|
  {
    |a| == 0 || (LowerChar(a[0]) == LowerChar(b[0]) && (a[0] == '\0' || CaseEqual(a[1..], b[1..])))
  }

  /** `hash_cmp` finds the keys equal. */
  predicate KeyEqual(flags: Flags, a: Key, b: Key) {
    |a| == |b| && if flags.ignoreCase then CaseEqual(a, b) else a == b
  }

  /** No NUL, except perhaps as the last byte. */
  predicate CString(k: Key) {
    forall i | 0 <= i < |k| - 1 :: k[i] != '\0'
  }

  /** The keys for which comparing and hashing agree. */
  predicate GoodKey(flags: Flags, k: Key) {
    flags.ignoreCase ==> CString(k)
  }

  /** The same byte, or the two cases of one letter. */
  predicate SameButCase(a: char, b: char) {
    || a == b
    || ('A' <= a <= 'Z' && b as int - 'a' as int == a as int - 'A' as int)
    || ('A' <= b <= 'Z' && a as int - 'a' as int == b as int - 'A' as int)
  }

  /** The keys are the same for a table with these flags, byte by byte. */
  predicate SameKey(flags: Flags, a: Key, b: Key) {
    |a| == |b| && forall i | 0 <= i < |a| :: a[i] == b[i] || (flags.ignoreCase && SameButCase(a[i], b[i]))
  }

  /** The hashed forms agree exactly for keys that are the same. */
  lemma CanonExact(flags: Flags, a: Key, b: Key)
    ensures Canon(flags, a) == Canon(flags, b) <==> SameKey(flags, a, b)
  {
    if |a| == |b| && flags.ignoreCase {
      assert Lower(a) == Lower(b) <==> forall i | 0 <= i < |a| :: Lower(a)[i] == Lower(b)[i];
      forall i | 0 <= i < |a| ensures Lower(a)[i] == Lower(b)[i] <==> SameButCase(a[i], b[i]) {}
    }
  }

  lemma LowerCons(k: Key)
    requires |k| > 0
    ensures Lower(k) == [LowerChar(k[0])] + Lower(k[1..])
  {}

  lemma {:induction false} CaseEqualCString(a: Key, b: Key)
    requires |a| == |b| && CString(a)
    ensures CaseEqual(a, b) <==> Lower(a) == Lower(b)
  {
    hide LowerChar;
    if |a| > 0 {
      LowerEqual(a, b);
      if a[0] != '\0' {
        CaseEqualCString(a[1..], b[1..]);
      } else {
        assert a[1..] == [] == b[1..];
      }
    }
  }

  lemma LowerEqual(a: Key, b: Key)
    requires |a| == |b| > 0
    ensures Lower(a) == Lower(b) <==> LowerChar(a[0]) == LowerChar(b[0]) && Lower(a[1..]) == Lower(b[1..])
  {
    hide LowerChar;
    LowerCons(a);
    LowerCons(b);
    assert Lower(a)[0] == LowerChar(a[0]) && Lower(a)[1..] == Lower(a[1..]);
    assert Lower(b)[0] == LowerChar(b[0]) && Lower(b)[1..] == Lower(b[1..]);
  }

  lemma {:induction false} CaseEqualBeyondNul(a: Key, b: Key, n: nat)
    requires |a| == |b| && n < |a| && a[n] == '\0' && a[..n + 1] == b[..n + 1]
    ensures CaseEqual(a, b)
  {
    assert a[0] == a[..n + 1][0] == b[..n + 1][0] == b[0];
    if n > 0 {
      assert a[1..][..n] == a[..n + 1][1..] == b[..n + 1][1..] == b[1..][..n];
      CaseEqualBeyondNul(a[1..], b[1..], n - 1);
    }
  }

  /** A key that differs from `a` after a NUL only: the comparison does not see it, the hash does. */
  lemma NulTwin(a: Key) returns (b: Key)
    requires !CString(a)
    ensures |a| == |b| && CaseEqual(a, b) && Lower(a) != Lower(b)
  {
    var n :| 0 <= n < |a| - 1 && a[n] == '\0';
    var last := if a[|a| - 1] == '0' then '1' else '0';
    b := a[|a| - 1 := last];
    assert a[..n + 1] == b[..n + 1];
    CaseEqualBeyondNul(a, b, n);
    assert Lower(a)[|a| - 1] != Lower(b)[|a| - 1];
  }

  /**
   * Comparison finds exactly the same keys, and so agrees with hashing, exactly when case matters or the key
   * is a C string: a case-insensitive comparison stops at a NUL, hashing does not.
   */
  lemma KeyEqualExact(flags: Flags, a: Key)
    ensures GoodKey(flags, a) <==> forall b :: KeyEqual(flags, a, b) <==> SameKey(flags, a, b)
    ensures GoodKey(flags, a) <==> forall b :: KeyEqual(flags, a, b) <==> Canon(flags, a) == Canon(flags, b)
  {
    hide SameKey;
    forall b ensures Canon(flags, a) == Canon(flags, b) <==> SameKey(flags, a, b) {
      CanonExact(flags, a, b);
    }
    if GoodKey(flags, a) {
      forall b ensures KeyEqual(flags, a, b) <==> Canon(flags, a) == Canon(flags, b) {
        if flags.ignoreCase && |a| == |b| {
          CaseEqualCString(a, b);
        }
      }
    } else {
      var b := NulTwin(a);
      assert KeyEqual(flags, a, b);
    }
  }

  // ---------- Buckets ----------

  /** Masking with a power of two less one is the remainder (see Bits.MaskIsRemainder). */
  function Bucket(cfg: Config, k: Key, n: nat): (b: nat)
    requires n > 0
    ensures b < n
  {
    cfg.hash(Canon(cfg.flags, k)) % n
  }

  predicate IsPow2(n: nat) {
    n == 1 || (n > 0 && n % 2 == 0 && IsPow2(n / 2))
  }

  function Double(i: nat, s: nat): (r: nat)
    requires i > 0
    decreases s - i
  {
    if i < s then Double(2 * i, s) else i
  }

  /** The doubling loop of `hash_size`. */
  function HashSize(s: nat): nat {
    Double(1, s)
  }

  lemma {:induction false} DoubleIsLeast(i: nat, s: nat)
    requires IsPow2(i) && (i == 1 || i < 2 * s)
    ensures IsPow2(Double(i, s)) && Double(i, s) >= s && Double(i, s) >= i && (Double(i, s) == 1 || Double(i, s) < 2 * s)
    decreases s - i
  {
    if i < s {
      DoubleIsLeast(2 * i, s);
    }
  }

  lemma {:induction false} Pow2Apart(p: nat, q: nat)
    requires IsPow2(p) && IsPow2(q) && p < q
    ensures 2 * p <= q
  {
    if p > 1 {
      Pow2Apart(p / 2, q / 2);
    }
  }

  /** The least power of two that is not below `s`. */
  lemma HashSizeIsLeast(s: nat)
    ensures IsPow2(HashSize(s)) && HashSize(s) >= s
    ensures forall p: nat | IsPow2(p) && p >= s :: HashSize(s) <= p
    ensures s > 0 ==> HashSize(s) < 2 * s
  {
    DoubleIsLeast(1, s);
    forall p: nat | IsPow2(p) && p >= s ensures HashSize(s) <= p {
      if p < HashSize(s) {
        Pow2Apart(p, HashSize(s));
      }
    }
  }

  // ---------- Operations ----------

  function FindIn<V>(flags: Flags, chain: seq<Pair<V>>, k: Key): (j: nat)
    ensures j <= |chain|
    ensures j < |chain| ==> KeyEqual(flags, k, chain[j].key)
    ensures forall i | 0 <= i < j :: !KeyEqual(flags, k, chain[i].key)
  {
    if |chain| == 0 then 0
    else if KeyEqual(flags, k, chain[0].key) then 0
    else 1 + FindIn(flags, chain[1..], k)
  }

  function Flatten<V>(chains: seq<seq<Pair<V>>>): seq<Pair<V>> {
    if |chains| == 0 then [] else Flatten(chains[..|chains| - 1]) + chains[|chains| - 1]
  }

  function Entries<V>(t: Table<V>): nat {
    |Flatten(t.chains)|
  }

  function EmptyChains<V>(n: nat): (r: seq<seq<Pair<V>>>)
    ensures |r| == n && forall i | 0 <= i < n :: r[i] == []
  {
    seq(n, i => [])
  }

  function New<V>(size: nat): Table<V> {
    Table(EmptyChains(HashSize(size)), 0)
  }

  /** Relinks the entries one by one, each at the head of its new chain. */
  function Redistribute<V>(cfg: Config, ps: seq<Pair<V>>, n: nat): (r: seq<seq<Pair<V>>>)
    requires n > 0
    ensures |r| == n
  {
    if |ps| == 0 then EmptyChains(n)
    else
      var p := ps[|ps| - 1];
      var r := Redistribute(cfg, ps[..|ps| - 1], n);
      var b := Bucket(cfg, p.key, n);
      r[b := [p] + r[b]]
  }

  /** The thresholds 3/4 and 1/4 add up to 1, so the new size is for twice the entries. */
  function Rehash<V>(cfg: Config, t: Table<V>): (r: Table<V>) {
    var n := HashSize(2 * Entries(t));
    if n == |t.chains| then t
    else
      DoubleIsLeast(1, 2 * Entries(t));
      Table(Redistribute(cfg, Flatten(t.chains), n), (t.resized + 1) % UINT_RANGE)
  }

  /** More than three entries for four buckets. */
  predicate TooFull(entries: nat, buckets: nat) {
    4 * entries > 3 * buckets
  }

  /** Less than one entry for four buckets. */
  predicate TooEmpty(entries: nat, buckets: nat) {
    4 * entries < buckets
  }

  predicate MayShrink(cfg: Config, resized: nat) {
    !cfg.flags.frozen && !(cfg.flags.frozenUntilGrows && resized == 0)
  }

  function GrowIfNeeded<V>(cfg: Config, t: Table<V>): Table<V> {
    if !cfg.flags.frozen && TooFull(Entries(t), |t.chains|) then Rehash(cfg, t) else t
  }

  function ShrinkIfNeeded<V>(cfg: Config, t: Table<V>): Table<V> {
    if MayShrink(cfg, t.resized) && TooEmpty(Entries(t), |t.chains|) then Rehash(cfg, t) else t
  }

  function Get<V>(cfg: Config, t: Table<V>, k: Key): Option<V>
    requires |t.chains| > 0
  {
    var chain := t.chains[Bucket(cfg, k, |t.chains|)];
    var j := FindIn(cfg.flags, chain, k);
    if j < |chain| then Some(chain[j].data) else None
  }

  /** The table with the entry stored, before any resize. */
  function Store<V>(cfg: Config, t: Table<V>, k: Key, data: V): (r: Table<V>)
    requires |t.chains| > 0
    ensures |r.chains| == |t.chains| && r.resized == t.resized
  {
    var b := Bucket(cfg, k, |t.chains|);
    var chain := t.chains[b];
    var j := FindIn(cfg.flags, chain, k);
    if j < |chain| then t.(chains := t.chains[b := chain[j := Pair(chain[j].key, data)]])
    else t.(chains := t.chains[b := [Pair(k, data)] + chain])
  }

  function Put<V>(cfg: Config, t: Table<V>, k: Key, data: V): Table<V>
    requires |t.chains| > 0
  {
    if Get(cfg, t, k).None? then GrowIfNeeded(cfg, Store(cfg, t, k, data)) else Store(cfg, t, k, data)
  }

  /** The table with the entry unlinked, before any resize. */
  function Unlink<V>(cfg: Config, t: Table<V>, k: Key): (r: Table<V>)
    requires |t.chains| > 0
    ensures |r.chains| == |t.chains| && r.resized == t.resized
  {
    var b := Bucket(cfg, k, |t.chains|);
    var chain := t.chains[b];
    var j := FindIn(cfg.flags, chain, k);
    if j < |chain| then t.(chains := t.chains[b := chain[..j] + chain[j + 1..]]) else t
  }

  function Delete<V>(cfg: Config, t: Table<V>, k: Key): Table<V>
    requires |t.chains| > 0
  {
    if Get(cfg, t, k).Some? then ShrinkIfNeeded(cfg, Unlink(cfg, t, k)) else t
  }

  function Clear<V>(cfg: Config, t: Table<V>): Table<V> {
    ShrinkIfNeeded(cfg, t.(chains := EmptyChains(|t.chains|)))
  }
}
