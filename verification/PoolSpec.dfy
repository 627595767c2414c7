/** What each allocator script does to the free sequence, the pool members, the locks and the bindings. */
module PoolSpec {
  import opened Sequences
  import opened PoolEncoding
  import opened Wrappers

  datatype Deadline = Forever | Until(ms: int)

  datatype Binding = Binding(key: string, deadline: Deadline)

  predicate Live(d: Deadline, now: int) {
    d.Forever? || now < d.ms
  }

  /** SET .. EX seconds, on a clock in milliseconds. */
  function After(now: int, seconds: int): Deadline {
    Until(now + 1000 * seconds)
  }

  function TimeoutToExpiry(now: int, timeout: int): int {
    if timeout <= 0 then -1 else now / 1000 + timeout
  }

  predicate ExpiryInvalid(expiry: int, now: int) {
    expiry > 0 && expiry <= now / 1000
  }

  /** The pool seen from outside: `free` is the free list from head to tail, `expiry` has one entry
      for every member, and a member that is not free is allocated. */
  datatype State = State(free: seq<string>, expiry: map<string, int>, locks: map<string, Deadline>,
                         binds: map<string, Binding>, now: nat) {
    predicate Locked(k: string) {
      k in locks && Live(locks[k], now)
    }

    predicate Expired(k: string)
      requires k in expiry
    {
      ExpiryInvalid(expiry[k], now)
    }

    predicate Stale(k: string)
      requires k in expiry
    {
      Expired(k) || Locked(k)
    }

    ghost predicate Wf() {
      Distinct(free) && forall k | k in free :: k in expiry
    }

    /** A locked pool member is allocated. */
    ghost predicate NoFreeLocked() {
      forall k | k in free :: !Locked(k)
    }

    /** The key a name is bound to, if that binding is still there. */
    function Bound(name: string): Option<string> {
      if name != "" && name in binds && Live(binds[name].deadline, now) then Some(binds[name].key) else None
    }
  }

  // ---------------------------------------------------------------- helpers

  function Push(s: State, k: string, e: int): (r: State)
    requires s.Wf() && k !in s.free
    ensures r.Wf()
  {
    s.(free := s.free + [k], expiry := s.expiry[k := e])
  }

  function Unlink(s: State, k: string): (r: State)
    requires s.Wf()
    ensures r.Wf()
  {
    DropDistinct(s.free, {k});
    s.(free := Drop(s.free, {k}))
  }

  function Forget(s: State, k: string): (r: State)
    requires s.Wf()
    ensures r.Wf()
  {
    DropDistinct(s.free, {k});
    s.(free := Drop(s.free, {k}), expiry := s.expiry - {k})
  }

  function Pop(s: State): (r: (State, Option<string>))
    requires s.Wf()
    ensures r.0.Wf()
    ensures r.1.Some? ==> r.1.value in r.0.expiry && r.1.value !in r.0.free
    decreases |s.free|
  {
    if s.free == [] then (s, None)
    else
      var k, rest := s.free[0], s.(free := s.free[1..]);
      if s.Expired(k) then Pop(rest.(expiry := s.expiry - {k}))
      else if s.Locked(k) then Pop(rest)
      else (rest, Some(k))
  }

  /** How many stale keys stand in front of the first usable one. */
  function StaleHeads(s: State, fl: seq<string>): nat
    requires forall k | k in fl :: k in s.expiry
  {
    if fl == [] || !s.Stale(fl[0]) then 0
    else
      assert forall k | k in fl[1..] :: k in fl;
      1 + StaleHeads(s, fl[1..])
  }

  /** Only the entries of the listed keys matter. */
  lemma {:induction false} StaleHeadsAgree(s: State, t: State, fl: seq<string>)
    requires forall k | k in fl :: k in s.expiry && k in t.expiry && s.expiry[k] == t.expiry[k]
    requires s.locks == t.locks && s.now == t.now
    ensures StaleHeads(s, fl) == StaleHeads(t, fl)
  {
    if fl == [] {
    } else {
      assert forall k | k in fl[1..] :: k in fl;
      assert fl[0] in fl;
      StaleHeadsAgree(s, t, fl[1..]);
    }
  }

  function CheckHealth(s: State, k: string): (r: State)
    requires s.Wf() && k in s.expiry
    ensures r.Wf()
    ensures s.expiry.Keys - {k} <= r.expiry.Keys <= s.expiry.Keys
  {
    if s.Expired(k) then Forget(s, k)
    else if k !in s.free then (if s.Locked(k) then s else Push(s, k, s.expiry[k]))
    else if s.Locked(k) then Unlink(s, k)
    else s
  }

  // ---------------------------------------------------------------- scripts

  function Clear(s: State): (r: State)
    ensures r.Wf()
  {
    s.(free := [], expiry := map[])
  }

  /** A name that is not a member joins unlocked, at the tail. */
  function Add(s: State, k: string, e: int): (r: State)
    requires s.Wf() && k !in s.expiry
    ensures r.Wf()
  {
    Push(s.(locks := s.locks - {k}), k, e)
  }

  function AddAll(s: State, keys: seq<string>, e: int): (r: State)
    requires s.Wf() && Distinct(keys) && forall k | k in keys :: k !in s.expiry
    ensures r.Wf()
    decreases |keys|
  {
    if keys == [] then s
    else
      assert forall k | k in keys[1..] :: k in keys && k != keys[0];
      AddAll(Add(s, keys[0], e), keys[1..], e)
  }

  function ExtendAll(s: State, keys: seq<string>, e: int): (r: State)
    requires s.Wf()
    ensures r.Wf()
    decreases |keys|
  {
    if keys == [] then s
    else if keys[0] in s.expiry then ExtendAll(s.(expiry := s.expiry[keys[0] := e]), keys[1..], e)
    else ExtendAll(Add(s, keys[0], e), keys[1..], e)
  }

  function ShrinkAll(s: State, keys: seq<string>): (r: State)
    requires s.Wf()
    ensures r.Wf()
    decreases |keys|
  {
    if keys == [] then s
    else ShrinkAll(if keys[0] in s.expiry then Forget(s, keys[0]) else s, keys[1..])
  }

  function AssignAll(s: State, wanted: set<string>, hkeys: seq<string>, order: seq<string>, e: int): (r: State)
    requires s.Wf() && Enumerates(hkeys, s.expiry.Keys) && Enumerates(order, wanted - s.expiry.Keys)
    ensures r.Wf()
  {
    var evicted := Evict(s, hkeys, wanted);
    assert forall k | k in order :: k in Elements(order);
    AddAll(evicted, order, e)
  }

  function Evict(s: State, hkeys: seq<string>, wanted: set<string>): (r: State)
    requires s.Wf()
    ensures r.Wf() && r.expiry.Keys <= s.expiry.Keys
    decreases |hkeys|
  {
    if hkeys == [] then s
    else Evict(if hkeys[0] in wanted then s else Forget(s, hkeys[0]), hkeys[1..], wanted)
  }

  function FreeOne(s: State, k: string, e: int): (r: State)
    requires s.Wf() && !(s.Locked(k) && k in s.free)
    ensures r.Wf()
  {
    var r := s.(locks := s.locks - {k});
    if s.Locked(k) && k in s.expiry then Push(r, k, e) else r
  }

  /** No key of the batch is locked and on the free list at once. */
  ghost predicate Freeable(s: State, keys: seq<string>) {
    forall k | k in keys :: !(s.Locked(k) && k in s.free)
  }

  /** A served key neither helps nor hinders the rest of its batch. */
  lemma FreeOneKeepsFreeable(s: State, k: string, rest: seq<string>, e: int)
    requires s.Wf() && !(s.Locked(k) && k in s.free)
    ensures Freeable(FreeOne(s, k, e), rest) <==> Freeable(s, rest)
  {
    var s' := FreeOne(s, k, e);
    assert !s'.Locked(k);
    assert forall x | x != k :: (s'.Locked(x) <==> s.Locked(x)) && (x in s'.free <==> x in s.free);
  }

  lemma FreeableSplit(s: State, keys: seq<string>, i: nat)
    requires i < |keys|
    ensures keys[i..][0] == keys[i] && keys[i..][1..] == keys[i + 1..]
    ensures Freeable(s, keys[i..]) <==> Freeable(s, keys[i + 1..]) && !(s.Locked(keys[i]) && keys[i] in s.free)
  {
    assert keys[i..] == [keys[i]] + keys[i + 1..];
  }

  function FreeAll(s: State, keys: seq<string>, e: int): (r: State)
    requires s.Wf() && Freeable(s, keys)
    ensures r.Wf()
    decreases |keys|
  {
    if keys == [] then s
    else
      var s' := FreeOne(s, keys[0], e);
      assert forall k | k in keys[1..] :: k in keys;
      FreeOneKeepsFreeable(s, keys[0], keys[1..], e);
      FreeAll(s', keys[1..], e)
  }

  function GcAll(s: State, scan: seq<string>): (r: State)
    requires s.Wf() && Distinct(scan) && forall k | k in scan :: k in s.expiry
    ensures r.Wf()
    decreases |scan|
  {
    if scan == [] then s
    else
      assert forall k | k in scan[1..] :: k in scan && k != scan[0];
      GcAll(CheckHealth(s, scan[0]), scan[1..])
  }

  // ---------------------------------------------------------------- malloc

  datatype Reply = Granted(key: string) | Empty | Done | Rejected | ScriptError

  function Lock(s: State, k: string, d: Deadline): State {
    s.(locks := s.locks[k := d])
  }

  function Bind(s: State, name: string, k: string, cacheTimeout: int): State {
    if name == "" then s
    else s.(binds := s.binds[name := Binding(k, if cacheTimeout > 0 then After(s.now, cacheTimeout) else Forever)])
  }

  /** The binding is honoured: the node leaves the list, wherever it stands, before the lock is set. */
  function MallocBound(s: State, shared: bool, timeout: int, name: string, cacheTimeout: int, k: string)
    : (r: (State, Reply))
    requires s.Wf()
    ensures r.0.Wf()
  {
    var s1 := Bind(s, name, k, cacheTimeout);
    if shared then (s1, Granted(k))
    else
      var s2 := Unlink(s1, k);
      if timeout > 0 then (Lock(s2, k, After(s.now, timeout)), Granted(k)) else (s2, ScriptError)
  }

  function MallocPop(s: State, shared: bool, timeout: int, name: string, cacheTimeout: int): (r: (State, Reply))
    requires s.Wf()
    ensures r.0.Wf()
  {
    var (s1, item) := Pop(s);
    match item
    case None => (s1, Empty)
    case Some(k) =>
      var s2 := if shared then Push(s1, k, s1.expiry[k])
                else Lock(s1, k, if timeout > 0 then After(s.now, timeout) else Forever);
      (Bind(s2, name, k, cacheTimeout), Granted(k))
  }

  predicate Honoured(s: State, name: string) {
    var b := s.Bound(name);
    b.Some? && b.value in s.expiry && !s.Locked(b.value)
  }

  function MallocKey(s: State, shared: bool, timeout: int, name: string, cacheTimeout: int): (r: (State, Reply))
    requires s.Wf()
    ensures r.0.Wf()
  {
    if Honoured(s, name) then MallocBound(s, shared, timeout, name, cacheTimeout, s.Bound(name).value)
    else if s.Bound(name).Some? then MallocPop(s.(binds := s.binds - {name}), shared, timeout, name, cacheTimeout)
    else MallocPop(s, shared, timeout, name, cacheTimeout)
  }

  // ---------------------------------------------------------------- runs

  /** One call by one client, or the clock moving. `hkeys`, `order` and `scan` are what HKEYS, pairs()
      and HSCAN happen to return. */
  datatype Op =
    | Malloc(timeout: int, name: string, cacheTimeout: int)
    | FreeKeys(keys: seq<string>, timeout: int)
    | Extend(keys: seq<string>, timeout: int)
    | Shrink(keys: seq<string>)
    | Assign(keys: seq<string>, timeout: int, hkeys: seq<string>, order: seq<string>)
    | ClearPool
    | Gc(scan: seq<string>)
    | Tick(ms: nat)
    | UpdateLock(key: string, ttl: Option<int>)
    | Unlock(key: string)

  /** What a call is given: enumerations that fit the pool, and no key of a freed batch locked and free at once. */
  ghost predicate Enabled(s: State, op: Op) {
    match op
    case FreeKeys(keys, _) => Freeable(s, keys)
    case Assign(keys, _, hkeys, order) =>
      Enumerates(hkeys, s.expiry.Keys) && Enumerates(order, Elements(keys) - s.expiry.Keys)
    case Gc(scan) => Distinct(scan) && forall k | k in scan :: k in s.expiry
    case _ => true
  }

  function Step(s: State, shared: bool, op: Op): (r: (State, Reply))
    requires s.Wf() && Enabled(s, op)
    ensures r.0.Wf()
  {
    match op
    case Malloc(timeout, name, cacheTimeout) => MallocKey(s, shared, timeout, name, cacheTimeout)
    case FreeKeys(keys, timeout) => (FreeAll(s, keys, TimeoutToExpiry(s.now, timeout)), Done)
    case Extend(keys, timeout) =>
      if exists k | k in keys :: !ValidKey(k) then (s, Rejected)
      else (ExtendAll(s, keys, TimeoutToExpiry(s.now, timeout)), Done)
    case Shrink(keys) => (ShrinkAll(s, keys), Done)
    case Assign(keys, timeout, hkeys, order) =>
      if keys == [] then (Clear(s), Done)
      else if exists k | k in keys :: !ValidKey(k) then (s, Rejected)
      else (AssignAll(s, Elements(keys), hkeys, order, TimeoutToExpiry(s.now, timeout)), Done)
    case ClearPool => (Clear(s), Done)
    case Gc(scan) => (GcAll(s, scan), Done)
    case Tick(ms) => (s.(now := s.now + ms), Done)
    case UpdateLock(k, timeout) =>
      if timeout.Some? && timeout.value <= 0 then (s, ScriptError)
      else (Lock(s, k, if timeout.None? then Forever else After(s.now, timeout.value)), Done)
    case Unlock(k) => (s.(locks := s.locks - {k}), Done)
  }

  ghost predicate RunEnabled(s: State, shared: bool, ops: seq<Op>)
    requires s.Wf()
    decreases |ops|
  {
    ops == [] || (Enabled(s, ops[0]) && RunEnabled(Step(s, shared, ops[0]).0, shared, ops[1..]))
  }

  function Run(s: State, shared: bool, ops: seq<Op>): (r: State)
    requires s.Wf() && RunEnabled(s, shared, ops)
    ensures r.Wf()
    decreases |ops|
  {
    if ops == [] then s else Run(Step(s, shared, ops[0]).0, shared, ops[1..])
  }

  /** The first n calls of a run form a run, and the rest is a run from where they end. */
  lemma {:induction false} RunSplit(s: State, shared: bool, ops: seq<Op>, n: nat)
    requires s.Wf() && RunEnabled(s, shared, ops) && n <= |ops|
    ensures RunEnabled(s, shared, ops[..n])
    ensures RunEnabled(Run(s, shared, ops[..n]), shared, ops[n..])
    ensures Run(s, shared, ops) == Run(Run(s, shared, ops[..n]), shared, ops[n..])
    decreases n
  {
    if n == 0 {
      assert ops[0..] == ops;
    } else {
      RunSplit(Step(s, shared, ops[0]).0, shared, ops[1..], n - 1);
      assert ops[..n][1..] == ops[1..][..n - 1];
      assert ops[n..] == ops[1..][n - 1..];
    }
  }
}
