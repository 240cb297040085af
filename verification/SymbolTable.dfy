/** The code generator's symbol table: a hash table keyed by C strings (src/codegen.c, lib/cfuhash.c). */
module SymbolTable {
  import opened Wrappers
  import opened TableModel
  import opened TableRefinement

  /** The bytes of a name as the table takes them, with the terminating NUL (`strlen(key) + 1`). */
  function CStr(x: string): Key {
    x + ['\0']
  }

  lemma CStrInjective(x: string, y: string)
    requires CStr(x) == CStr(y)
    ensures x == y
  {
    assert x == CStr(x)[..|x|] && y == CStr(y)[..|y|];
  }

  /** The table holds exactly the given names. */
  ghost predicate Represents<V(!new)>(cfg: Config, t: Table<V>, syms: map<string, V>) {
    && !cfg.flags.ignoreCase && Inv(cfg, t)
    && (forall x | x in syms :: CStr(x) in Contents(cfg, t) && Contents(cfg, t)[CStr(x)] == syms[x])
    && (forall k | k in Contents(cfg, t) :: exists x :: x in syms && CStr(x) == k)
  }

  lemma Lookup<V(!new)>(cfg: Config, t: Table<V>, syms: map<string, V>, x: string)
    requires Represents(cfg, t, syms)
    ensures |t.chains| > 0 && Get(cfg, t, CStr(x)) == if x in syms then Some(syms[x]) else None
  {
    GetRefines(cfg, t, CStr(x));
    if CStr(x) in Contents(cfg, t) {
      var y :| y in syms && CStr(y) == CStr(x);
      CStrInjective(x, y);
    }
  }

  lemma Define<V(!new)>(cfg: Config, t: Table<V>, syms: map<string, V>, x: string, v: V)
    requires Represents(cfg, t, syms)
    ensures |t.chains| > 0 && Represents(cfg, Put(cfg, t, CStr(x), v), syms[x := v])
  {
    PutRefines(cfg, t, CStr(x), v);
    hide Inv, Contents;
    var m, m', syms' := Contents(cfg, t), Contents(cfg, t)[CStr(x) := v], syms[x := v];
    forall y | y in syms && y != x ensures CStr(y) != CStr(x) {
      if CStr(y) == CStr(x) {
        CStrInjective(y, x);
      }
    }
    forall k | k in m' ensures exists y :: y in syms' && CStr(y) == k {
      if k != CStr(x) {
        assert k in m;
        var y :| y in syms && CStr(y) == k;
        assert y in syms';
      } else {
        assert x in syms';
      }
    }
  }

  lemma Cleared<V(!new)>(cfg: Config, t: Table<V>)
    requires Inv(cfg, t) && !cfg.flags.ignoreCase
    ensures Represents(cfg, Clear(cfg, t), map[])
  {
    ClearRefines(cfg, t);
  }
}
