/** Whole runs: what a table answers to any sequence of requests is what a finite map would answer. */
module TableRuns {
  import opened Wrappers
  import opened TableModel
  import opened TableRefinement

  datatype Request<V> =
    | GetReq(key: Key)
    | PutReq(key: Key, data: V)
    | DeleteReq(key: Key)
    | ClearReq
    | RehashReq

  /** The data found, replaced or deleted, if there was any; whether there was is the answer to `exists`. */
  function Answer<V>(cfg: Config, t: Table<V>, req: Request<V>): Option<V>
    requires |t.chains| > 0
  {
    if req.ClearReq? || req.RehashReq? then None else Get(cfg, t, req.key)
  }

  function Next<V>(cfg: Config, t: Table<V>, req: Request<V>): Table<V>
    requires |t.chains| > 0
  {
    match req
    case GetReq(_) => t
    case PutReq(k, data) => Put(cfg, t, k, data)
    case DeleteReq(k) => Delete(cfg, t, k)
    case ClearReq => Clear(cfg, t)
    case RehashReq => Rehash(cfg, t)
  }

  function MapAnswer<V>(flags: Flags, m: map<Key, V>, req: Request<V>): Option<V> {
    if req.ClearReq? || req.RehashReq? then None
    else if Canon(flags, req.key) in m then Some(m[Canon(flags, req.key)])
    else None
  }

  function MapNext<V>(flags: Flags, m: map<Key, V>, req: Request<V>): map<Key, V> {
    match req
    case GetReq(_) => m
    case PutReq(k, data) => m[Canon(flags, k) := data]
    case DeleteReq(k) => m - {Canon(flags, k)}
    case ClearReq => map[]
    case RehashReq => m
  }

  predicate Good<V>(flags: Flags, req: Request<V>) {
    req.ClearReq? || req.RehashReq? || GoodKey(flags, req.key)
  }

  lemma StepRefines<V(!new)>(cfg: Config, t: Table<V>, req: Request<V>)
    requires Inv(cfg, t) && Good(cfg.flags, req)
    ensures Inv(cfg, Next(cfg, t, req)) && Contents(cfg, Next(cfg, t, req)) == MapNext(cfg.flags, Contents(cfg, t), req)
    ensures Answer(cfg, t, req) == MapAnswer(cfg.flags, Contents(cfg, t), req)
  {
    hide Contents, Put, Delete, Clear, Rehash, Get;
    match req
    case GetReq(k) => GetRefines(cfg, t, k);
    case PutReq(k, data) =>
      GetRefines(cfg, t, k);
      PutRefines(cfg, t, k, data);
    case DeleteReq(k) =>
      GetRefines(cfg, t, k);
      DeleteRefines(cfg, t, k);
    case ClearReq => ClearRefines(cfg, t);
    case RehashReq => RehashRefines(cfg, t);
  }

  /** What is stored under a key is found under the same key, and no other key sees it. */
  lemma PutSeen<V(!new)>(cfg: Config, t: Table<V>, a: Key, data: V, b: Key)
    requires Inv(cfg, t) && GoodKey(cfg.flags, a) && GoodKey(cfg.flags, b)
    ensures
      var u := Put(cfg, t, a, data);
      |u.chains| > 0 && Get(cfg, u, b) == if SameKey(cfg.flags, a, b) then Some(data) else Get(cfg, t, b)
  {
    PutRefines(cfg, t, a, data);
    GetRefines(cfg, t, b);
    GetRefines(cfg, Put(cfg, t, a, data), b);
    CanonExact(cfg.flags, a, b);
    hide Contents, Put, Get, SameKey, Canon;
  }

  /** What is deleted is not found under the same key, and no other key misses anything. */
  lemma DeleteSeen<V(!new)>(cfg: Config, t: Table<V>, a: Key, b: Key)
    requires Inv(cfg, t) && GoodKey(cfg.flags, a) && GoodKey(cfg.flags, b)
    ensures
      var u := Delete(cfg, t, a);
      |u.chains| > 0 && Get(cfg, u, b) == if SameKey(cfg.flags, a, b) then None else Get(cfg, t, b)
  {
    DeleteRefines(cfg, t, a);
    GetRefines(cfg, t, b);
    GetRefines(cfg, Delete(cfg, t, a), b);
    CanonExact(cfg.flags, a, b);
    hide Contents, Delete, Get, SameKey, Canon;
  }

  /** The answers of a table. */
  ghost function Answers<V(!new)>(cfg: Config, t: Table<V>, reqs: seq<Request<V>>): seq<Option<V>>
    requires Inv(cfg, t) && forall i | 0 <= i < |reqs| :: Good(cfg.flags, reqs[i])
    decreases |reqs|
  {
    if |reqs| == 0 then []
    else
      StepRefines(cfg, t, reqs[0]);
      [Answer(cfg, t, reqs[0])] + Answers(cfg, Next(cfg, t, reqs[0]), reqs[1..])
  }

  /** The answers of a map. */
  function MapAnswers<V>(flags: Flags, m: map<Key, V>, reqs: seq<Request<V>>): seq<Option<V>>
    decreases |reqs|
  {
    if |reqs| == 0 then [] else [MapAnswer(flags, m, reqs[0])] + MapAnswers(flags, MapNext(flags, m, reqs[0]), reqs[1..])
  }

  lemma {:induction false} RunRefines<V(!new)>(cfg: Config, t: Table<V>, reqs: seq<Request<V>>)
    requires Inv(cfg, t) && forall i | 0 <= i < |reqs| :: Good(cfg.flags, reqs[i])
    ensures Answers(cfg, t, reqs) == MapAnswers(cfg.flags, Contents(cfg, t), reqs)
    decreases |reqs|
  {
    hide Contents, Next, Answer, MapNext, MapAnswer, Good;
    if |reqs| > 0 {
      StepRefines(cfg, t, reqs[0]);
      RunRefines(cfg, Next(cfg, t, reqs[0]), reqs[1..]);
    }
  }

  /** A fresh table answers like an empty map, for ever, whatever its size, its flags and its hash function. */
  lemma TableIsMap<V(!new)>(cfg: Config, size: nat, reqs: seq<Request<V>>)
    requires forall i | 0 <= i < |reqs| :: Good(cfg.flags, reqs[i])
    ensures Inv<V>(cfg, New(size)) && Answers(cfg, New(size), reqs) == MapAnswers(cfg.flags, map[], reqs)
  {
    NewRefines<V>(cfg, size);
    RunRefines(cfg, New(size), reqs);
  }
}
