/** The two validation caches run by one caller (pkg/validator/cache.go, memo.go and the
    key preparation of validator.go). */
module ValidatorCache {
  import opened Common

  /** nil, an error that is ErrInvalidXDS, or any other error. */
  datatype Outcome = Ok | Invalid(msg: string) | Transient(msg: string)

  /** A bootstrap is its log configuration and everything else. */
  datatype Bootstrap = Bootstrap(body: string, applicationLogConfig: Option<string>)

  /** What the environment fixes: the marshaller (None is its error), the content hashes
      of prepared bytes and of resources, the bootstrap built around a resource, and
      Envoy's verdict on prepared bytes. */
  datatype Env = Env(marshal: Bootstrap -> Option<string>, sha: string -> string, contentKey: string -> string,
                     wrap: string -> Bootstrap, envoy: string -> Outcome)

  /** The marshaller is a function, the hashes do not collide, Envoy's verdict is not transient. */
  ghost predicate Sane(env: Env) {
    && (forall x, y :: env.sha(x) == env.sha(y) ==> x == y)
    && (forall x, y :: env.contentKey(x) == env.contentKey(y) ==> x == y)
    && (forall x :: !env.envoy(x).Transient?)
  }

  /** prepareBootstrapConfig: marshal a clone without its log configuration. */
  function Prepare(env: Env, b: Bootstrap): Option<string> {
    env.marshal(b.(applicationLogConfig := None))
  }

  function CacheKeyFor(env: Env, b: Bootstrap): Option<string> {
    match Prepare(env, b)
    case None => None
    case Some(bytes) => Some(env.sha(bytes))
  }

  datatype CachedResult = CachedResult(ok: bool, msg: string)

  /** cachedResult.err: the memoised verdict as an error again. */
  function Rehydrate(r: CachedResult): Outcome { if r.ok then Ok else Invalid(r.msg) }

  function Memoize(o: Outcome): CachedResult
    requires !o.Transient?
  {
    if o.Ok? then CachedResult(true, "") else CachedResult(false, o.msg)
  }

  /** Memoising and rehydrating keeps the text and the ErrInvalidXDS identity. */
  lemma RehydrateMemoize(o: Outcome)
    requires !o.Transient?
    ensures Rehydrate(Memoize(o)) == o
  {}

  /** Envoy's verdict on the marshalled bootstrap, its log configuration left out. */
  ghost predicate IsVerdict(env: Env, b: Bootstrap, o: Outcome) {
    env.marshal(Bootstrap(b.body, None)).Some? && o == env.envoy(env.marshal(Bootstrap(b.body, None)).value)
  }

  /** What one call of the wrapped validator may return. */
  ghost predicate InnerMay(env: Env, b: Bootstrap, o: Outcome) { o.Transient? || IsVerdict(env, b, o) }

  /** Every entry is the verdict on the bytes its key was computed from. */
  ghost predicate CacheSound(env: Env, cache: map<string, CachedResult>) {
    forall bytes :: env.sha(bytes) in cache ==> Rehydrate(cache[env.sha(bytes)]) == env.envoy(bytes)
  }

  ghost predicate MemoSound(env: Env, memo: map<string, CachedResult>) {
    forall r :: env.contentKey(r) in memo ==> IsVerdict(env, env.wrap(r), Rehydrate(memo[env.contentKey(r)]))
  }

  lemma CacheAdd(env: Env, cache: map<string, CachedResult>, bytes: string, o: Outcome)
    requires Sane(env) && CacheSound(env, cache) && o == env.envoy(bytes)
    ensures !o.Transient? && CacheSound(env, cache[env.sha(bytes) := Memoize(o)])
  {}

  lemma MemoAdd(env: Env, memo: map<string, CachedResult>, r: string, o: Outcome)
    requires Sane(env) && MemoSound(env, memo)
    requires IsVerdict(env, env.wrap(r), o)
    ensures !o.Transient? && MemoSound(env, memo[env.contentKey(r) := Memoize(o)])
  {}

  /** Two bootstraps that differ only in their log configuration share a key, and keys are
      shared only by bootstraps that marshal to the same bytes without it. */
  lemma SharedKey(env: Env, a: Bootstrap, b: Bootstrap)
    requires Sane(env)
    ensures a.body == b.body ==> CacheKeyFor(env, a) == CacheKeyFor(env, b)
    ensures CacheKeyFor(env, a) == CacheKeyFor(env, b) <==>
            env.marshal(Bootstrap(a.body, None)) == env.marshal(Bootstrap(b.body, None))
    ensures a.applicationLogConfig.None? ==> Prepare(env, a) == env.marshal(a)
  {
    Prepared(env, a);
    Prepared(env, b);
  }

  lemma Prepared(env: Env, b: Bootstrap)
    ensures Prepare(env, b) == env.marshal(Bootstrap(b.body, None))
  {
    assert b.(applicationLogConfig := None) == Bootstrap(b.body, None);
  }

  /** Where the marshaller tells bodies apart, a key is shared exactly by equal bodies. */
  lemma KeySharedIffSameBody(env: Env, a: Bootstrap, b: Bootstrap)
    requires Sane(env)
    requires forall x, y :: env.marshal(x).Some? && env.marshal(x) == env.marshal(y) ==> x == y
    requires env.marshal(Bootstrap(a.body, None)).Some?
    ensures CacheKeyFor(env, a) == CacheKeyFor(env, b) <==> a.body == b.body
  {
    SharedKey(env, a, b);
  }

  const DEFAULT_CACHE_SIZE := 65536

  /** A bounded map that may drop any entry to make room. */
  class Lru<V> {
    const size: int
    var items: map<string, V>

    ghost predicate Valid() reads this { 0 < size && |items| <= size }

    constructor (requested: int)
      ensures Valid() && items == map[]
      ensures size == if requested <= 0 then DEFAULT_CACHE_SIZE else requested
    {
      size := if requested <= 0 then DEFAULT_CACHE_SIZE else requested;
      items := map[];
    }

    method Get(key: string) returns (v: Option<V>)
      ensures v == if key in items then Some(items[key]) else None
    {
      if key in items { return Some(items[key]); }
      return None;
    }

    method Add(key: string, v: V)
      requires Valid()
      modifies this
      ensures Valid() && key in items && items[key] == v
      ensures forall k :: k in items && k != key ==> k in old(items) && items[k] == old(items)[k]
      ensures key in old(items) || |old(items)| < size ==> items == old(items)[key := v]
    {
      if key !in items && |items| == size {
        var victim :| victim in items;
        items := items - {victim};
        assert items.Keys == old(items.Keys) - {victim};
      }
      ghost var before := items;
      items := items[key := v];
      assert items.Keys == before.Keys + {key};
    }
  }

  /** cachingValidator for one caller at a time; `inner` is what the wrapped validator
      would return if it were called now. */
  class CachingValidator {
    const cache: Lru<CachedResult>

    ghost predicate Valid(env: Env) reads this, cache { cache.Valid() && CacheSound(env, cache.items) }

    constructor (size: int)
      ensures fresh(cache) && cache.items == map[] && forall env :: Valid(env)
    {
      cache := new Lru<CachedResult>(size);
    }

    /** The answer is the inner verdict or the transient error of the inner call just
        made; the inner validator runs exactly on a miss, and only verdicts are kept. */
    method Validate(env: Env, b: Bootstrap, inner: Outcome) returns (out: Outcome, called: bool)
      requires Sane(env) && Valid(env) && InnerMay(env, b, inner)
      modifies cache
      ensures Valid(env)
      ensures InnerMay(env, b, out) && (out.Transient? ==> called && out == inner)
      ensures called <==> CacheKeyFor(env, b).None? || CacheKeyFor(env, b).value !in old(cache.items)
      ensures called ==> out == inner
      ensures !called || inner.Transient? ==> cache.items == old(cache.items)
      ensures called && !inner.Transient? ==> CacheKeyFor(env, b).value in cache.items
    {
      var key := CacheKeyFor(env, b);
      if key.None? { return inner, true; }
      ghost var bytes := Prepare(env, b).value;
      Prepared(env, b);
      var hit := cache.Get(key.value);
      if hit.Some? {
        assert env.sha(bytes) in cache.items;
        return Rehydrate(hit.value), false;
      }
      if inner.Transient? { return inner, true; }
      CacheAdd(env, cache.items, bytes, inner);
      cache.Add(key.value, Memoize(inner));
      assert CacheSound(env, cache.items);
      return Rehydrate(Memoize(inner)), true;
    }
  }

  /** Memo in front of any validator of the resource's bootstrap. */
  class Memo {
    const cache: Lru<CachedResult>

    ghost predicate Valid(env: Env) reads this, cache { cache.Valid() && MemoSound(env, cache.items) }

    constructor (size: int)
      ensures fresh(cache) && cache.items == map[] && forall env :: Valid(env)
    {
      cache := new Lru<CachedResult>(size);
    }

    method Validate(env: Env, resource: string, inner: Outcome) returns (out: Outcome, called: bool)
      requires Sane(env) && Valid(env) && InnerMay(env, env.wrap(resource), inner)
      modifies cache
      ensures Valid(env)
      ensures InnerMay(env, env.wrap(resource), out) && (out.Transient? ==> called && out == inner)
      ensures called <==> env.contentKey(resource) !in old(cache.items)
      ensures called ==> out == inner
      ensures !called || inner.Transient? ==> cache.items == old(cache.items)
      ensures called && !inner.Transient? ==> env.contentKey(resource) in cache.items
    {
      var key := env.contentKey(resource);
      var hit := cache.Get(key);
      if hit.Some? { return Rehydrate(hit.value), false; }
      if !inner.Transient? {
        MemoAdd(env, cache.items, resource, inner);
        cache.Add(key, Memoize(inner));
        assert MemoSound(env, cache.items);
      }
      return inner, true;
    }
  }
}
