/**
 * Bencoding a table of strings (lib/cfuhash.c), and a decoder for the dictionaries of BEP 3 that takes
 * their keys in any order.
 */
module Bencode {
  import opened Wrappers
  import opened LexSpec
  import opened Decimals
  import opened TableModel
  import opened TableRefinement
  import opened HashTable
  import opened SymbolTable
  import CfuString

  /** What `strlen` sees of a key: the bytes before the first NUL. */
  function Name(k: Key): string {
    if |k| == 0 || k[0] == '\0' then "" else [k[0]] + Name(k[1..])
  }

  lemma {:induction false} NameOfCStr(x: string)
    requires NoNul(x)
    ensures Name(CStr(x)) == x
  {
    if |x| > 0 {
      NameOfCStr(x[1..]);
      assert CStr(x)[1..] == CStr(x[1..]);
    }
  }

  // ---------- Encoding ----------

  /** A byte string: its length, a colon, and the bytes. */
  function ByteString(s: string): string {
    Decimal(|s|) + (":" + s)
  }

  function Members(ps: seq<Pair<Option<string>>>): string {
    if |ps| == 0 then "" else ByteString(Name(ps[0].key)) + (ByteString(ps[0].data.GetOr("")) + Members(ps[1..]))
  }

  function Encode(ps: seq<Pair<Option<string>>>): string {
    "d" + (Members(ps) + "e")
  }

  // ---------- Decoding ----------

  /** A length without leading zeros, a colon, and as many bytes. */
  function TakeByteString(s: string): (r: Option<(string, string)>)
    ensures r.Some? ==> |r.value.1| < |s|
  {
    var (n, rest) :- TakeNumber(s);
    if |rest| == 0 || rest[0] != ':' || |rest| <= n then None else Some((rest[1..n + 1], rest[n + 1..]))
  }

  /** The members of a dictionary up to its end; a key may not come twice. */
  function TakeMembers(s: string, m: map<string, string>): Option<map<string, string>>
    decreases |s|
  {
    if s == "e" then Some(m)
    else
      var (key, rest) :- TakeByteString(s);
      var (value, rest') :- TakeByteString(rest);
      if key in m then None else TakeMembers(rest', m[key := value])
  }

  function Decode(s: string): Option<map<string, string>> {
    if |s| > 0 && s[0] == 'd' then TakeMembers(s[1..], map[]) else None
  }

  // ---------- Decoding undoes encoding ----------

  lemma TakeByteStringBack(x: string, k: string)
    ensures TakeByteString(ByteString(x) + k) == Some((x, k))
  {
    var d, rest := Decimal(|x|), ":" + (x + k);
    NumberTaken(|x|, rest);
    hide Decimal;
    assert ByteString(x) + k == d + rest;
    assert rest[1..|x| + 1] == x && rest[|x| + 1..] == k;
  }

  /** The names of the pairs are all different, and none is in `m`. */
  predicate Fresh(ps: seq<Pair<Option<string>>>, m: map<string, string>) {
    && (forall i, j | 0 <= i < j < |ps| :: Name(ps[i].key) != Name(ps[j].key))
    && (forall i | 0 <= i < |ps| :: Name(ps[i].key) !in m)
  }

  /** The map with the pairs added. */
  function Added(ps: seq<Pair<Option<string>>>, m: map<string, string>): map<string, string> {
    if |ps| == 0 then m else Added(ps[1..], m[Name(ps[0].key) := ps[0].data.GetOr("")])
  }

  lemma {:induction false} TakeMembersBack(ps: seq<Pair<Option<string>>>, m: map<string, string>)
    requires Fresh(ps, m)
    ensures TakeMembers(Members(ps) + "e", m) == Some(Added(ps, m))
    decreases |ps|
  {
    if |ps| == 0 {
      assert Members(ps) + "e" == "e";
    } else {
      var x, v, rest := Name(ps[0].key), ps[0].data.GetOr(""), Members(ps[1..]) + "e";
      assert Members(ps) + "e" == ByteString(x) + (ByteString(v) + rest);
      TakeByteStringBack(x, ByteString(v) + rest);
      TakeByteStringBack(v, rest);
      TakeMembersBack(ps[1..], m[x := v]);
      NotJustE(x, ByteString(v) + rest);
    }
  }

  lemma NotJustE(x: string, k: string)
    ensures ByteString(x) + k != "e"
  {
    NoLeadingZero(|x|);
    hide Decimal;
    assert (ByteString(x) + k)[0] == Decimal(|x|)[0];
  }

  lemma DecodeBack(ps: seq<Pair<Option<string>>>)
    requires Fresh(ps, map[])
    ensures Decode(Encode(ps)) == Some(Added(ps, map[]))
  {
    TakeMembersBack(ps, map[]);
    assert Encode(ps)[1..] == Members(ps) + "e";
  }

  predicate HasName(ps: seq<Pair<Option<string>>>, x: string) {
    |ps| > 0 && (Name(ps[0].key) == x || HasName(ps[1..], x))
  }

  lemma {:induction false} PairNamed(ps: seq<Pair<Option<string>>>, x: string) returns (p: Pair<Option<string>>)
    requires HasName(ps, x)
    ensures p in ps && Name(p.key) == x
  {
    if Name(ps[0].key) == x {
      p := ps[0];
    } else {
      p := PairNamed(ps[1..], x);
    }
  }

  lemma {:induction false} AddedHas(ps: seq<Pair<Option<string>>>, m: map<string, string>)
    requires Fresh(ps, m)
    ensures forall p | p in ps :: Name(p.key) in Added(ps, m) && Added(ps, m)[Name(p.key)] == p.data.GetOr("")
    ensures forall x | x in m :: x in Added(ps, m) && Added(ps, m)[x] == m[x]
    ensures forall x | x in Added(ps, m) :: x in m || HasName(ps, x)
    decreases |ps|
  {
    if |ps| > 0 {
      var m' := m[Name(ps[0].key) := ps[0].data.GetOr("")];
      AddedHas(ps[1..], m');
      forall p | p in ps ensures Name(p.key) in Added(ps, m) && Added(ps, m)[Name(p.key)] == p.data.GetOr("") {
        assert p == ps[0] || p in ps[1..];
      }
    }
  }

  // ---------- The table ----------

  /** The key is a C string with its terminating NUL. */
  predicate CStringKey(k: Key) {
    |k| > 0 && k[|k| - 1] == '\0' && NoNul(k[..|k| - 1])
  }

  lemma KeyOfName(k: Key)
    requires CStringKey(k)
    ensures k == CStr(Name(k))
  {
    NameOfCStr(k[..|k| - 1]);
    assert k == CStr(k[..|k| - 1]);
  }

  ghost predicate StringTable(cfg: Config, t: Table<Option<string>>) {
    Inv(cfg, t) && forall p | p in Flatten(t.chains) :: CStringKey(p.key)
  }

  /** `m` is the map the table denotes: keys without their NULs, NULL data as the empty string. */
  ghost predicate Denotes(cfg: Config, t: Table<Option<string>>, m: map<string, string>) {
    && (forall x | x in m :: Canon(cfg.flags, CStr(x)) in Contents(cfg, t) &&
                             m[x] == Contents(cfg, t)[Canon(cfg.flags, CStr(x))].GetOr(""))
    && (forall c | c in Contents(cfg, t) :: exists x :: x in m && Canon(cfg.flags, CStr(x)) == c)
    && (forall x, y | x in m && y in m && Canon(cfg.flags, CStr(x)) == Canon(cfg.flags, CStr(y)) :: x == y)
  }

  lemma NamesFresh(cfg: Config, t: Table<Option<string>>)
    requires StringTable(cfg, t)
    ensures Fresh(Flatten(t.chains), map[])
  {
    var ps := Flatten(t.chains);
    FlattenUnique(cfg, t.chains, |t.chains|);
    forall i, j | 0 <= i < j < |ps| ensures Name(ps[i].key) != Name(ps[j].key) {
      KeyOfName(ps[i].key);
      KeyOfName(ps[j].key);
    }
  }

  /** What the decoded map has to do with the pairs of the table. */
  ghost predicate FromPairs(ps: seq<Pair<Option<string>>>, m: map<string, string>) {
    && (forall p | p in ps :: Name(p.key) in m)
    && (forall x | x in m :: exists p :: Gives(ps, p, x, m[x]))
  }

  predicate Gives(ps: seq<Pair<Option<string>>>, p: Pair<Option<string>>, x: string, v: string) {
    p in ps && CStr(x) == p.key && v == p.data.GetOr("")
  }

  lemma AddedFromPairs(ps: seq<Pair<Option<string>>>)
    requires Fresh(ps, map[]) && forall p | p in ps :: CStringKey(p.key)
    ensures FromPairs(ps, Added(ps, map[]))
  {
    hide Added, Fresh, CStringKey, CStr, Name;
    AddedHas(ps, map[]);
    var m := Added(ps, map[]);
    forall x | x in m ensures exists p :: Gives(ps, p, x, m[x]) {
      var p := PairNamed(ps, x);
      KeyOfName(p.key);
      assert Gives(ps, p, x, m[x]);
    }
  }

  lemma NameDenoted(cfg: Config, t: Table<Option<string>>, m: map<string, string>, x: string)
    requires Inv(cfg, t) && FromPairs(Flatten(t.chains), m) && x in m
    ensures Canon(cfg.flags, CStr(x)) in Contents(cfg, t) && m[x] == Contents(cfg, t)[Canon(cfg.flags, CStr(x))].GetOr("")
  {
    hide Contents, Inv, Flatten, Canon, CStr;
    var p :| Gives(Flatten(t.chains), p, x, m[x]);
    ContentsHolds(cfg, t, p);
  }

  lemma DenotedNamed(cfg: Config, t: Table<Option<string>>, m: map<string, string>, c: Key) returns (x: string)
    requires StringTable(cfg, t) && FromPairs(Flatten(t.chains), m) && c in Contents(cfg, t)
    ensures x in m && Canon(cfg.flags, CStr(x)) == c
  {
    hide Contents, Inv, Flatten, Canon, CStr, CStringKey, Name;
    var p := ContentsFrom(cfg, t, c);
    KeyOfName(p.key);
    x := Name(p.key);
  }

  lemma NamesDiffer(cfg: Config, t: Table<Option<string>>, m: map<string, string>, x: string, y: string)
    requires Inv(cfg, t) && FromPairs(Flatten(t.chains), m) && x in m && y in m
    requires Canon(cfg.flags, CStr(x)) == Canon(cfg.flags, CStr(y))
    ensures x == y
  {
    hide Contents, Inv, Flatten, Canon, CStr;
    var p :| Gives(Flatten(t.chains), p, x, m[x]);
    var q :| Gives(Flatten(t.chains), q, y, m[y]);
    KeysUnique(cfg, t, p, q);
    CStrInjective(x, y);
  }

  /** Decoding the bencoded table gives the map it denotes. */
  lemma BencodeRoundTrip(cfg: Config, t: Table<Option<string>>)
    requires StringTable(cfg, t)
    ensures
      var m := Decode(Encode(Flatten(t.chains)));
      m.Some? && Denotes(cfg, t, m.value)
  {
    var ps := Flatten(t.chains);
    hide Flatten, Contents, Inv, Canon, CStr, Added, Encode, Decode, FromPairs;
    NamesFresh(cfg, t);
    DecodeBack(ps);
    AddedFromPairs(ps);
    var m := Added(ps, map[]);
    forall x | x in m
      ensures Canon(cfg.flags, CStr(x)) in Contents(cfg, t) && m[x] == Contents(cfg, t)[Canon(cfg.flags, CStr(x))].GetOr("")
    {
      NameDenoted(cfg, t, m, x);
    }
    forall c | c in Contents(cfg, t) ensures exists x :: x in m && Canon(cfg.flags, CStr(x)) == c {
      var x := DenotedNamed(cfg, t, m, c);
    }
    forall x, y | x in m && y in m && Canon(cfg.flags, CStr(x)) == Canon(cfg.flags, CStr(y)) ensures x == y {
      NamesDiffer(cfg, t, m, x, y);
    }
  }

  /** The table looks up each of its keys to the data stored with it. */
  lemma KeyFindsData(cfg: Config, t: Table<Option<string>>, j: nat)
    requires StringTable(cfg, t) && j < |Flatten(t.chains)|
    ensures
      var p := Flatten(t.chains)[j];
      |t.chains| > 0 && p.key == CStr(Name(p.key)) && Get(cfg, t, p.key) == Some(p.data)
  {
    var p := Flatten(t.chains)[j];
    KeyOfName(p.key);
    HoldsInBucket(cfg, t, p);
    GetRefines(cfg, t, p.key);
    ContentsHolds(cfg, t, p);
  }

  lemma MembersStep(done: string, ps: seq<Pair<Option<string>>>, i: nat)
    requires i < |ps|
    ensures
      var x, v := ByteString(Name(ps[i].key)), ByteString(ps[i].data.GetOr(""));
      done + Members(ps[i..]) == done + x + v + Members(ps[i + 1..])
  {
    var x, v, rest := ByteString(Name(ps[i].key)), ByteString(ps[i].data.GetOr("")), Members(ps[i + 1..]);
    assert ps[i..][1..] == ps[i + 1..] && ps[i..][0] == ps[i];
    Regroup(done, x, v, rest);
    hide ByteString, Name;
  }

  lemma Regroup(done: string, x: string, v: string, rest: string)
    ensures done + (x + (v + rest)) == done + x + v + rest
  {}

  /** `cfuhash_bencode_strings`: the buffer starts with room for 16 and grows as it must. */
  method BencodeStrings(ht: HashTable<Option<string>>) returns (rv: array<char>)
    requires ht.Valid() && StringTable(ht.cfg, ht.Model())
    ensures fresh(rv) && rv[..] == Encode(Flatten(ht.pairs)) + ['\0']
  {
    hide Members, Encode, Decimal, ByteString, Flatten, StringTable, Inv, KeysOf, HashTable.Valid, Name, Get;
    ghost var ps := Flatten(ht.pairs);
    var bencoded := new CfuString.CfuString(16);
    bencoded.Append(Some("d"));
    var keys := ht.KeysData();
    Started(bencoded.Contents(), ps);
    var i := 0;
    while i < |keys|
      invariant i <= |keys| == |ps| && keys == KeysOf(ps)
      invariant fresh(bencoded) && bencoded.Valid() && bencoded.str != null && fresh(bencoded.str)
      invariant bencoded.Contents() + Members(ps[i..]) == "d" + Members(ps)
    {
      KeyAt(ps, i);
      AppendMember(bencoded, ht, keys[i], i);
      i := i + 1;
    }
    Finished(bencoded.Contents(), ps);
    bencoded.Append(Some("e"));
    rv := bencoded.GetBufferCopy();
  }

  /** The loop body: the key, and the data looked up under it. */
  method AppendMember(buf: CfuString.CfuString, ht: HashTable<Option<string>>, key: Key, ghost i: nat)
    requires ht.Valid() && StringTable(ht.cfg, ht.Model()) && buf.Valid() && buf.str != null
    requires i < |Flatten(ht.pairs)| && key == Flatten(ht.pairs)[i].key && buf !in ht.Repr && buf.str !in ht.Repr
    modifies buf, buf.str
    ensures buf.Valid() && buf.str != null && (buf.str == old(buf.str) || fresh(buf.str))
    ensures
      var ps := Flatten(ht.pairs);
      buf.Contents() + Members(ps[i + 1..]) == old(buf.Contents()) + Members(ps[i..])
  {
    hide Members, Decimal, ByteString, Flatten, StringTable, Inv, HashTable.Valid, Name, Get;
    MembersStep(buf.Contents(), Flatten(ht.pairs), i);
    KeyFindsData(ht.cfg, ht.Model(), i);
    var val := ht.GetData(key);
    AppendByteString(buf, Some(Name(key)));
    AppendByteString(buf, val.GetOr(None));
  }

  lemma Started(done: string, ps: seq<Pair<Option<string>>>)
    requires done == "" + "d"
    ensures done + Members(ps[0..]) == "d" + Members(ps)
  {
    assert ps[0..] == ps;
  }

  lemma KeyAt(ps: seq<Pair<Option<string>>>, i: nat)
    requires i < |ps|
    ensures KeysOf(ps)[i] == ps[i].key
  {}

  lemma Finished(done: string, ps: seq<Pair<Option<string>>>)
    requires done + Members(ps[|ps|..]) == "d" + Members(ps)
    ensures done + "e" == Encode(ps)
  {
    assert done + "" == done;
    assert ("d" + Members(ps)) + "e" == "d" + (Members(ps) + "e");
  }

  /** One string with its length: `snprintf` of the length and a colon, and two appends. */
  method AppendByteString(buf: CfuString.CfuString, s: Option<string>)
    requires buf.Valid() && buf.str != null
    modifies buf, buf.str
    ensures buf.Valid() && buf.str != null && (buf.str == old(buf.str) || fresh(buf.str))
    ensures buf.Contents() == old(buf.Contents()) + ByteString(s.GetOr(""))
  {
    buf.Append(Some(Decimal(|s.GetOr("")|) + ":"));
    buf.Append(s);
  }
}
