/** Why the table's map needs keys without inner NULs when case is ignored. */
module TableNulKeys {
  import opened Wrappers
  import opened TableModel
  import opened TableCost
  import opened Bits

  lemma EightBuckets<V(!new)>()
    ensures |New<V>(8).chains| == 8 && Entries(New<V>(8)) == 0
    ensures forall i | 0 <= i < 8 :: New<V>(8).chains[i] == []
  {
    assert Double(4, 8) == 8;
    assert HashSize(8) == 8;
    FlattenNothing<V>(8);
  }

  /** The flags of a table made with CFUHASH_IGNORE_CASE. */
  const IGNORE_CASE := Flags(true, false, true)

  /** A fresh table of the default size finds a stored key by itself, but not by a key of another bucket. */
  lemma LostByBucket<V(!new)>(cfg: Config, a: Key, b: Key, data: V)
    requires Bucket(cfg, a, 8) != Bucket(cfg, b, 8) && KeyEqual(cfg.flags, a, a)
    ensures |New<V>(8).chains| == 8 && |Put(cfg, New(8), a, data).chains| > 0
    ensures Get(cfg, Put(cfg, New(8), a, data), a) == Some(data) && Get(cfg, Put(cfg, New(8), a, data), b) == None
  {
    var t: Table<V> := New(8);
    var i := Bucket(cfg, a, 8);
    EightBuckets<V>();
    var u := Store(cfg, t, a, data);
    assert [Pair(a, data)] + [] == [Pair(a, data)];
    FlattenUpdate(t.chains, i, u.chains[i]);
    assert u.chains == t.chains[i := [Pair(a, data)]];
    hide New;
    assert Put(cfg, t, a, data) == u;
  }

  /**
   * Any case-insensitive key with a NUL inside can be lost: under some hash function, a fresh table that
   * stores it does not find it by a key that compares equal.
   */
  lemma NulKeyLost<V(!new)>(a: Key, data: V) returns (cfg: Config, b: Key)
    requires !CString(a)
    ensures cfg.flags == IGNORE_CASE && KeyEqual(cfg.flags, a, b)
    ensures |New<V>(8).chains| == 8 && |Put(cfg, New(8), a, data).chains| > 0
    ensures Get(cfg, Put(cfg, New(8), a, data), a) == Some(data) && Get(cfg, Put(cfg, New(8), a, data), b) == None
  {
    b := NulTwin(a);
    var c := Lower(b);
    cfg := Config((k: Key) => if k == c then 1 else 0, IGNORE_CASE);
    assert Bucket(cfg, a, 8) == 0 && Bucket(cfg, b, 8) == 1;
    SelfEqual(a);
    LostByBucket(cfg, a, b, data);
  }

  lemma {:induction false} SelfEqual(a: Key)
    ensures CaseEqual(a, a)
  {
    if |a| > 0 {
      SelfEqual(a[1..]);
    }
  }

  // ---------- With the default hash function ----------

  /** One byte of the default hash function. */
  function Mix(hv: bv32, c: bv32): bv32 {
    var a := hv + c;
    var b := a + (a << 10);
    b ^ (b >> 6)
  }

  function MixAll(hv: bv32, bytes: seq<bv32>): bv32
    decreases |bytes|
  {
    if |bytes| == 0 then hv else MixAll(Mix(hv, bytes[0]), bytes[1..])
  }

  /** The default hash function, on the bytes of a key. */
  function HashWord(bytes: seq<bv32>): bv32 {
    var a := MixAll(0, bytes);
    var b := a + (a << 3);
    var c := b ^ (b >> 11);
    c + (c << 15)
  }

  function Bytes(k: Key): seq<bv32> {
    seq(|k|, i requires 0 <= i < |k| => Byte(k[i]))
  }

  /** A character is one byte. */
  function Byte(c: char): bv32 {
    if c as int < 256 then c as int as bv32 else 0
  }

  function DefaultHash(k: Key): nat {
    Value(HashWord(Bytes(k)))
  }

  lemma HashOf(k: Key, x: bv32, y: bv32)
    requires |k| == 2 && Byte(k[0]) == x && Byte(k[1]) == y
    ensures HashWord(Bytes(k)) == HashWord([x, y]) && MixAll(0, [x, y]) == Mix(Mix(0, x), y)
  {
    assert Bytes(k) == [x, y];
    assert [x, y][1..] == [y] && [y][1..] == [];
    assert MixAll(Mix(0, x), [y]) == Mix(Mix(0, x), y);
  }

  lemma HashConstants()
    ensures HashWord([0, 97]) & 7 == 2 && HashWord([0, 98]) & 7 == 3
  {
    assert [0 as bv32, 97][1..] == [97] && [97 as bv32][1..] == [];
    assert [0 as bv32, 98][1..] == [98] && [98 as bv32][1..] == [];
    assert MixAll(0, [0, 97]) == Mix(Mix(0, 0), 97);
    assert MixAll(0, [0, 98]) == Mix(Mix(0, 0), 98);
  }

  lemma SmallValues()
    ensures Value(8) == 8 && Value(2) == 2 && Value(3) == 3
  {
    assert Half(8) == 4 && Half(4) == 2 && Half(2) == 1 && Half(1) == 0 && Half(3) == 1;
    assert Value(1) == 1;
    assert Value(2) == 2;
    assert Value(4) == 4;
  }

  /** A NUL and a small `a`, a NUL and a small `b`. */
  const KEY_A: Key := ['\0', 'a']
  const KEY_B: Key := ['\0', 'b']

  lemma KeyHashes()
    ensures DefaultHash(Canon(IGNORE_CASE, KEY_A)) == Value(HashWord([0, 97]))
    ensures DefaultHash(Canon(IGNORE_CASE, KEY_B)) == Value(HashWord([0, 98]))
  {
    assert Lower(KEY_A) == KEY_A && Lower(KEY_B) == KEY_B;
    HashOf(KEY_A, 0, 97);
    HashOf(KEY_B, 0, 98);
    hide Value, HashWord, Bytes;
  }

  lemma KeysDiffer()
    ensures Bucket(Config(DefaultHash, IGNORE_CASE), KEY_A, 8) != Bucket(Config(DefaultHash, IGNORE_CASE), KEY_B, 8)
  {
    var cfg := Config(DefaultHash, IGNORE_CASE);
    KeyHashes();
    SmallValues();
    HashConstants();
    assert IsPow2(8);
    hide *;
    BucketIsMasked(cfg, KEY_A, HashWord([0, 97]), 8);
    BucketIsMasked(cfg, KEY_B, HashWord([0, 98]), 8);
  }

  /** With the default hash function and the default size, one of two keys that compare equal is not found. */
  lemma NulKeyLostByDefault<V(!new)>(data: V)
    ensures
      var cfg := Config(DefaultHash, IGNORE_CASE);
      && KeyEqual(cfg.flags, KEY_A, KEY_B) && |New<V>(8).chains| == 8 && |Put(cfg, New(8), KEY_A, data).chains| > 0
      && Get(cfg, Put(cfg, New(8), KEY_A, data), KEY_A) == Some(data)
      && Get(cfg, Put(cfg, New(8), KEY_A, data), KEY_B) == None
  {
    KeysDiffer();
    SelfEqual(KEY_A);
    hide Bucket, DefaultHash;
    LostByBucket(Config(DefaultHash, IGNORE_CASE), KEY_A, KEY_B, data);
  }
}
