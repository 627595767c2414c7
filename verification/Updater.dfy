/** The updater that fetches keys parameter by parameter, and the policy that refreshes the pool from it. */
module Updater {
  import opened Sequences
  import opened PoolEncoding
  import opened PoolSpec
  import opened ScriptMeaning
  import opened Modulo
  import opened FreeList
  import opened Allocator
  import opened Legibility

  /** Where the updater stands after n calls. */
  function Advance(index: nat, n: nat, m: nat): (r: nat)
    requires index < m
    ensures r < m
  {
    if n == 0 then index else (Advance(index, n - 1, m) + 1) % m
  }

  /** The parameters n calls use, starting at `index`. */
  function Rounds<P>(params: seq<P>, index: nat, n: nat): (r: seq<P>)
    requires index < |params|
    ensures |r| == n
  {
    if n == 0 then [] else Rounds(params, index, n - 1) + [params[Advance(index, n - 1, |params|)]]
  }

  function Gather<P>(fetch: P -> seq<string>, params: seq<P>): seq<string> {
    if params == [] then [] else Gather(fetch, params[..|params| - 1]) + fetch(params[|params| - 1])
  }

  function FetchedKeys<P>(fetch: P -> seq<string>, params: seq<P>): set<string> {
    Elements(Gather(fetch, params))
  }

  lemma {:induction false} GatherAll<P(!new)>(fetch: P -> seq<string>, params: seq<P>, k: string)
    ensures k in Gather(fetch, params) <==> exists p :: p in params && k in fetch(p)
  {
    if params == [] {
    } else {
      var last := |params| - 1;
      assert params == params[..last] + [params[last]];
      GatherAll(fetch, params[..last], k);
      assert params[last] in params;
    }
  }

  lemma {:induction false} AdvanceWraps(index: nat, n: nat, m: nat)
    requires index < m && n <= m
    ensures Advance(index, n, m) == if index + n < m then index + n else index + n - m
  {
    if n == 0 {
    } else {
      AdvanceWraps(index, n - 1, m);
      NextInCircle(Advance(index, n - 1, m), m);
    }
  }

  /** At most one turn: read on to the end, then start over. */
  lemma {:induction false} RoundsWrap<P(!new)>(params: seq<P>, index: nat, n: nat)
    requires index < |params| && n <= |params|
    ensures Rounds(params, index, n)
            == if index + n <= |params| then params[index..index + n]
               else params[index..] + params[..index + n - |params|]
  {
    if n == 0 {
    } else {
      hide Advance;
      RoundsWrap(params, index, n - 1);
      AdvanceWraps(index, n - 1, |params|);
      var last := index + n - 1;
      if last < |params| {
        assert params[index..last + 1] == params[index..last] + [params[last]];
      } else {
        assert params[..last + 1 - |params|] == params[..last - |params|] + [params[last - |params|]];
        assert last == |params| ==> params[index..last] + params[..0] == params[index..last];
      }
    }
  }

  /** One full turn, from any starting index, uses every parameter exactly once and ends where it began. */
  lemma EachParamOnce<P(!new)>(params: seq<P>, index: nat)
    requires index < |params|
    ensures multiset(Rounds(params, index, |params|)) == multiset(params)
    ensures Advance(index, |params|, |params|) == index
  {
    hide Rounds, Advance;
    RoundsWrap(params, index, |params|);
    AdvanceWraps(index, |params|, |params|);
    var a, b := params[..index], params[index..];
    assert params == a + b;
    assert Rounds(params, index, |params|) == b + a;
    assert multiset(a + b) == multiset(a) + multiset(b) == multiset(b + a);
  }

  class KeyUpdater<P(!new)> {
    const params: seq<P>
    const fetch: P -> seq<string>
    var index: nat

    ghost predicate Valid()
      reads this
    {
      index < |params|
    }

    constructor (params: seq<P>, fetch: P -> seq<string>)
      requires params != []
      ensures Valid() && this.params == params && this.fetch == fetch && index == 0
    {
      this.params, this.fetch, this.index := params, fetch, 0;
    }

    method Call() returns (keys: seq<string>)
      requires Valid()
      modifies `index
      ensures Valid() && keys == fetch(params[old(index)]) && index == (old(index) + 1) % |params|
    {
      var current := params[index];
      index := (index + 1) % |params|;
      keys := fetch(current);
    }
  }

  /** random.shuffle: any rearrangement. */
  method Shuffle(keys: seq<string>) returns (r: seq<string>)
    ensures multiset(r) == multiset(keys)
  {
    r := [];
    var rest := keys;
    while rest != []
      invariant multiset(r) + multiset(rest) == multiset(keys)
      decreases |rest|
    {
      var i :| 0 <= i < |rest|;
      assert rest == rest[..i] + [rest[i]] + rest[i + 1..];
      r, rest := r + [rest[i]], rest[..i] + rest[i + 1..];
    }
  }

  lemma SameElements(a: seq<string>, b: seq<string>)
    requires multiset(a) == multiset(b)
    ensures Elements(a) == Elements(b)
  {
    assert forall k :: k in a <==> k in multiset(a);
    assert forall k :: k in b <==> k in multiset(b);
  }

  /** What a refresh with the fetched set `keys` does to the pool: assign for a single parameter, extend otherwise. */
  ghost predicate Refreshed(s: State, t: State, single: bool, keys: set<string>, e: int) {
    && t.expiry.Keys == keys + (if single then {} else s.expiry.Keys)
    && (forall k | k in t.expiry :: t.expiry[k] == if k in s.expiry && (single || k !in keys) then s.expiry[k] else e)
    && t.locks == s.locks - (keys - s.expiry.Keys) && t.binds == s.binds && t.now == s.now
    && Distinct(t.free)
    && Elements(t.free) == (Elements(s.free) * t.expiry.Keys) + (keys - s.expiry.Keys)
  }

  method Collect<P(!new)>(u: KeyUpdater<P>, n: nat) returns (keys: seq<string>)
    requires u.Valid()
    modifies u`index
    ensures u.Valid() && u.index == Advance(old(u.index), n, |u.params|)
    ensures keys == Gather(u.fetch, Rounds(u.params, old(u.index), n))
  {
    keys := [];
    for i := 0 to n
      invariant u.Valid() && u.index == Advance(old(u.index), i, |u.params|)
      invariant keys == Gather(u.fetch, Rounds(u.params, old(u.index), i))
    {
      var r := Rounds(u.params, old(u.index), i + 1);
      assert r[..|r| - 1] == Rounds(u.params, old(u.index), i);
      var more := u.Call();
      keys := keys + more;
    }
  }

  lemma ExtendRefreshes(s: State, keys: seq<string>, e: int)
    requires s.Wf()
    ensures Refreshed(s, ExtendAll(s, keys, e), false, Elements(keys), e)
  {
    hide Distinct;
    ExtendMeaning(s, keys, e);
    assert forall k :: k in keys <==> k in Elements(keys);
  }

  lemma AssignRefreshes(s: State, keys: set<string>, hkeys: seq<string>, order: seq<string>, e: int)
    requires s.Wf() && Enumerates(hkeys, s.expiry.Keys) && Enumerates(order, keys - s.expiry.Keys)
    ensures Refreshed(s, AssignAll(s, keys, hkeys, order, e), true, keys, e)
  {
    hide Distinct;
    AssignMeaning(s, keys, hkeys, order, e);
    assert forall k :: k in order <==> k in Elements(order);
  }

  /** Hand shuffled keys to assign when there is one parameter, to extend otherwise. */
  method PutKeys(a: RedisAllocator, single: bool, keys: seq<string>, expiryDuration: int) returns (r: Reply)
    requires a.Valid() && keys != []
    modifies a
    ensures a.Spelled()
    ensures if exists k | k in keys :: !ValidKey(k) then
              r == Rejected && a.Abs() == old(a.Abs())
            else
              && r == Done
              && Refreshed(old(a.Abs()), a.Abs(), single, Elements(keys), TimeoutToExpiry(a.now, expiryDuration))
  {
    hide Linked, ExpiriesOf, Encodes, Spells, LuaLegible, Named, Distinct, Refreshed, ValidKey, ExtendAll, AssignAll;
    ghost var e := TimeoutToExpiry(a.now, expiryDuration);
    ghost var before := a.Abs();
    if single {
      var hkeys := Enumerate(a.pool.Keys);
      var order := Enumerate(Elements(keys) - a.pool.Keys);
      r := a.Assign(keys, expiryDuration, hkeys, order);
      AssignRefreshes(before, Elements(keys), hkeys, order, e);
    } else {
      r := a.Extend(keys, expiryDuration);
      ExtendRefreshes(before, keys, e);
    }
  }

  /** One refresh: fetch n parameters, shuffle, then assign or extend. */
  method RefreshPool<P(!new)>(a: RedisAllocator, u: KeyUpdater<P>, n: nat, expiryDuration: int) returns (r: Reply)
    requires a.Valid() && u.Valid()
    modifies a, u`index
    ensures a.Spelled() && u.Valid() && u.index == Advance(old(u.index), n, |u.params|)
    ensures var keys := FetchedKeys(u.fetch, Rounds(u.params, old(u.index), n));
            if keys == {} then
              r == Done && a.Abs() == old(a.Abs())
            else if exists k | k in keys :: !ValidKey(k) then
              r == Rejected && a.Abs() == old(a.Abs())
            else
              && r == Done
              && Refreshed(old(a.Abs()), a.Abs(), |u.params| == 1, keys, TimeoutToExpiry(a.now, expiryDuration))
  {
    hide Linked, ExpiriesOf, Encodes, Spells, LuaLegible, Named, Distinct, Refreshed, ValidKey, Rounds, Gather;
    ghost var before := a.Abs();
    var gathered := Collect(u, n);
    assert a.Abs() == before;
    if |gathered| == 0 {
      assert Elements(gathered) == {};
      return Done;
    }
    assert gathered[0] in Elements(gathered);
    var keys := Shuffle(gathered);
    SameElements(keys, gathered);
    assert forall k :: k in keys <==> k in Elements(keys);
    assert keys != [] by {
      assert gathered[0] in keys;
    }
    r := PutKeys(a, |u.params| == 1, keys, expiryDuration);
  }

  lemma RefreshedFromEmpty(s: State, t: State, single: bool, keys: set<string>, e: int)
    requires s.expiry == map[] && s.free == [] && Refreshed(s, t, single, keys, e)
    ensures t.expiry.Keys == keys == Elements(t.free) && Distinct(t.free)
    ensures forall k | k in keys :: !t.Locked(k) && t.expiry[k] == e
  {
    hide Distinct;
  }

  /** A full refresh fetches every parameter once, from any starting index, and leaves the pool equal to the union of
      what was fetched: all free, all unlocked, each listed once. One invalid key leaves the pool empty. The scripts
      can read the new list whenever no fetched key has a leading pipe. */
  method RefreshPoolAll<P(!new)>(a: RedisAllocator, u: KeyUpdater<P>, expiryDuration: int) returns (r: Reply)
    requires u.Valid()
    modifies a, u`index
    ensures a.Spelled() && u.index == old(u.index)
    ensures var keys := FetchedKeys(u.fetch, u.params);
            && (forall k :: k in keys <==> exists p :: p in u.params && k in u.fetch(p))
            && (if exists k | k in keys :: !ValidKey(k) then
                  r == Rejected && a.Abs().expiry == map[] && a.fl == []
                else
                  && a.Abs().expiry.Keys == keys == Elements(a.fl) && Distinct(a.fl)
                  && forall k | k in keys ::
                       !a.Abs().Locked(k) && a.Abs().expiry[k] == TimeoutToExpiry(a.now, expiryDuration))
    ensures (forall p, k | p in u.params && k in u.fetch(p) :: !LeadingPipe(k)) ==> a.Valid()
  {
    hide Linked, ExpiriesOf, Encodes, Spells, LuaLegible, Named, Distinct, Refreshed, ValidKey, Rounds, FetchedKeys;
    EachParamOnce(u.params, u.index);
    SameFetched(u.fetch, u.params, Rounds(u.params, u.index, |u.params|));
    Fetched(u.fetch, u.params);
    a.ClearScript();
    ghost var empty := a.Abs();
    r := RefreshPool(a, u, |u.params|, expiryDuration);
    ghost var keys := FetchedKeys(u.fetch, u.params);
    PlainIsLegible(a.fl, keys);
    if keys != {} && forall k | k in keys :: ValidKey(k) {
      RefreshedFromEmpty(empty, a.Abs(), |u.params| == 1, keys, TimeoutToExpiry(a.now, expiryDuration));
    } else {
      DistinctNothing<string>();
    }
  }

  lemma Fetched<P(!new)>(fetch: P -> seq<string>, params: seq<P>)
    ensures forall k :: k in FetchedKeys(fetch, params) <==> exists p :: p in params && k in fetch(p)
  {
    forall k: string
      ensures k in FetchedKeys(fetch, params) <==> exists p :: p in params && k in fetch(p)
    {
      GatherAll(fetch, params, k);
    }
  }

  lemma SameFetched<P(!new)>(fetch: P -> seq<string>, a: seq<P>, b: seq<P>)
    requires multiset(a) == multiset(b)
    ensures FetchedKeys(fetch, a) == FetchedKeys(fetch, b)
  {
    assert forall p :: p in a <==> p in multiset(a);
    assert forall p :: p in b <==> p in multiset(b);
    forall k: string
      ensures k in FetchedKeys(fetch, a) <==> k in FetchedKeys(fetch, b)
    {
      GatherAll(fetch, a, k);
      GatherAll(fetch, b, k);
    }
  }
}
