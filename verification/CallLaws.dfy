/** What every call leaves behind, field by field, in milliseconds and whole seconds: nothing here refers to how the
    scripts tell a live lock, an expired entry or a binding. */
module CallLaws {
  import opened Sequences
  import opened PoolEncoding
  import opened Wrappers
  import opened PoolSpec
  import opened ScriptMeaning
  import opened RunProperties

  predicate InForce(d: Deadline, now: int) {
    match d
    case Forever => true
    case Until(ms) => now - ms < 0
  }

  predicate Held(s: State, k: string) {
    k in s.locks && InForce(s.locks[k], s.now)
  }

  /** Entries count whole seconds; zero and below stand for no expiry. */
  predicate RunOut(s: State, k: string) {
    k in s.expiry && s.expiry[k] >= 1 && 1000 * s.expiry[k] <= s.now
  }

  predicate BoundTo(s: State, name: string, k: string) {
    name != "" && name in s.binds && s.binds[name].key == k && InForce(s.binds[name].deadline, s.now)
  }

  function DueAt(now: int, seconds: int): Deadline {
    if seconds <= 0 then Forever else Until(now + 1000 * seconds)
  }

  function GoodUntil(now: int, seconds: int): int {
    if seconds <= 0 then -1 else now / 1000 + seconds
  }

  /** The model's own tests agree with these. */
  lemma SameTests(s: State, k: string, name: string)
    ensures s.Locked(k) <==> Held(s, k)
    ensures k in s.expiry ==> (s.Expired(k) <==> RunOut(s, k)) && (s.Stale(k) <==> Held(s, k) || RunOut(s, k))
    ensures s.Bound(name) == Some(k) <==> BoundTo(s, name, k)
  {
    assert 1000 * (s.now / 1000) <= s.now < 1000 * (s.now / 1000) + 1000;
  }

  // ---------------------------------------------------------------- malloc

  /** The n keys in front of the list are held or run out, and the next one, if any, is neither. */
  predicate FirstUsable(s: State, n: nat) {
    && n <= |s.free|
    && (forall i | 0 <= i < n :: Held(s, s.free[i]) || RunOut(s, s.free[i]))
    && (n < |s.free| ==> !Held(s, s.free[n]) && !RunOut(s, s.free[n]))
  }

  lemma FirstUsableIs(s: State, n: nat)
    requires s.Wf() && FirstUsable(s, n)
    ensures StaleHeads(s, s.free) == n
    ensures ExpiredIn(s, s.free[..n]) == set k | k in s.free[..n] && RunOut(s, k)
  {
    hide Distinct, StaleHeads;
    var m := StaleHeads(s, s.free);
    StaleHeadsMeaning(s, s.free);
    forall i | 0 <= i < |s.free|
      ensures s.free[i] in s.expiry && (s.Stale(s.free[i]) <==> Held(s, s.free[i]) || RunOut(s, s.free[i]))
    {
      SameTests(s, s.free[i], "");
    }
    forall k | k in s.free[..n]
      ensures k in s.expiry && (s.Expired(k) <==> RunOut(s, k))
    {
      assert k in s.free;
      SameTests(s, k, "");
    }
  }

  /** No binding of the name leads to a member nobody holds. */
  predicate Unbound(s: State, name: string) {
    name != "" && name in s.binds && InForce(s.binds[name].deadline, s.now) ==>
      s.binds[name].key !in s.expiry || Held(s, s.binds[name].key)
  }

  /** The bindings after a call of malloc by `name` that took k, or nothing, from the list. */
  function Rebound(s: State, name: string, k: Option<string>, cacheTimeout: int): map<string, Binding> {
    if name == "" then s.binds
    else if k.Some? then s.binds[name := Binding(k.value, DueAt(s.now, cacheTimeout))]
    else if name in s.binds && InForce(s.binds[name].deadline, s.now) then s.binds - {name}
    else s.binds
  }

  /** Malloc from the list: what it answers and all it leaves. The key it takes stays a member with its expiry. */
  lemma MallocFromList(s: State, shared: bool, timeout: int, name: string, cacheTimeout: int, n: nat)
    requires s.Wf() && Unbound(s, name) && FirstUsable(s, n)
    ensures var (r, reply) := MallocKey(s, shared, timeout, name, cacheTimeout);
            var k := if n < |s.free| then Some(s.free[n]) else None;
            && reply == (if k.Some? then Granted(k.value) else Empty)
            && r.expiry == s.expiry - (set x | x in s.free[..n] && RunOut(s, x))
            && r.free == (if k.None? then [] else s.free[n + 1..] + if shared then [k.value] else [])
            && r.locks == (if k.Some? && !shared then s.locks[k.value := DueAt(s.now, timeout)] else s.locks)
            && r.binds == Rebound(s, name, k, cacheTimeout)
            && r.now == s.now
  {
    hide Distinct, Pop, StaleHeads, ExpiredIn, RunOut, Held;
    NotHonoured(s, name);
    var s' := s.(binds := s.binds - {name});
    PopMeaning(s);
    PopMeaning(s');
    FirstUsableIs(s, n);
    StaleHeadsAgree(s, s', s.free);
    SameExpired(s, s', s.free[..n]);
    if n < |s.free| {
      KeptWithExpiry(s, n);
    }
  }

  lemma SameExpired(s: State, t: State, keys: seq<string>)
    requires s.expiry == t.expiry && s.now == t.now
    ensures ExpiredIn(s, keys) == ExpiredIn(t, keys)
  {
  }

  lemma KeptWithExpiry(s: State, n: nat)
    requires s.Wf() && n < |s.free|
    ensures var m := s.expiry - ExpiredIn(s, s.free[..n]);
            s.free[n] in m && m[s.free[n] := m[s.free[n]]] == m
  {
    DistinctAround(s.free, n);
  }

  lemma NotHonoured(s: State, name: string)
    requires Unbound(s, name)
    ensures !Honoured(s, name)
    ensures s.Bound(name).Some? <==> name != "" && name in s.binds && InForce(s.binds[name].deadline, s.now)
  {
    if s.Bound(name).Some? {
      SameTests(s, s.Bound(name).value, name);
    }
  }

  /** Malloc by a binding: the same, wherever the key stands. */
  lemma MallocByBinding(s: State, shared: bool, timeout: int, name: string, cacheTimeout: int, k: string)
    requires s.Wf() && BoundTo(s, name, k) && k in s.expiry && !Held(s, k)
    ensures var (r, reply) := MallocKey(s, shared, timeout, name, cacheTimeout);
            && reply == (if shared || timeout > 0 then Granted(k) else ScriptError)
            && r.expiry == s.expiry
            && r.free == (if shared then s.free else Drop(s.free, {k}))
            && r.locks == (if !shared && timeout > 0 then s.locks[k := Until(s.now + 1000 * timeout)] else s.locks)
            && r.binds == s.binds[name := Binding(k, DueAt(s.now, cacheTimeout))]
            && r.now == s.now
  {
    hide Distinct;
    SameTests(s, k, name);
  }

  // ---------------------------------------------------------------- the batches

  /** Extend: one invalid key rejects all; otherwise the new names join in order of first occurrence, unlocked, and
      every named member is good for `timeout` seconds from now. */
  lemma ExtendLeaves(s: State, shared: bool, keys: seq<string>, timeout: int)
    requires s.Wf()
    ensures var (r, reply) := Step(s, shared, Extend(keys, timeout));
            if exists k | k in keys :: !ValidKey(k) then r == s && reply == Rejected
            else
              && reply == Done
              && r.expiry.Keys == s.expiry.Keys + Elements(keys)
              && (forall k | k in r.expiry ::
                    r.expiry[k] == if k in keys then GoodUntil(s.now, timeout) else s.expiry[k])
              && s.free <= r.free
              && FirstOccurrences(r.free[|s.free|..], keys, Elements(keys) - s.expiry.Keys)
              && r.locks == s.locks - (Elements(keys) - s.expiry.Keys)
              && r.binds == s.binds && r.now == s.now
  {
    hide Distinct, ExtendAll, Pick, ValidKey, FirstOccurrences, Elements, AllAt;
    ExtendedFields(s, keys, GoodUntil(s.now, timeout));
    ExtendMeaning(s, keys, GoodUntil(s.now, timeout));
  }

  lemma ExtendedFields(s: State, keys: seq<string>, e: int)
    requires s.Wf()
    ensures var r := Extended(s, keys, e);
            && r.expiry.Keys == s.expiry.Keys + Elements(keys)
            && (forall k | k in r.expiry :: r.expiry[k] == if k in keys then e else s.expiry[k])
            && s.free <= r.free
            && FirstOccurrences(r.free[|s.free|..], keys, Elements(keys) - s.expiry.Keys)
  {
    hide Distinct, Pick, FirstOccurrences;
    PickIsFirst(keys, Elements(keys) - s.expiry.Keys);
    var added := Pick(keys, Elements(keys) - s.expiry.Keys);
    assert (s.free + added)[|s.free|..] == added;
  }

  /** Shrink: the named members leave, and nothing else changes, their locks included. */
  lemma ShrinkLeaves(s: State, shared: bool, keys: seq<string>)
    requires s.Wf()
    ensures var (r, reply) := Step(s, shared, Shrink(keys));
            && reply == Done
            && r.expiry == s.expiry - Elements(keys) && r.free == Drop(s.free, Elements(keys))
            && r.locks == s.locks && r.binds == s.binds && r.now == s.now
  {
    hide Distinct, ShrinkAll, Drop;
    ShrinkMeaning(s, keys);
  }

  /** Assign: no keys, no members; one invalid key, no change; otherwise exactly the given keys, the old ones as they
      were and in their order, the new ones behind them, unlocked, good for `timeout` seconds. */
  lemma AssignLeaves(s: State, shared: bool, keys: seq<string>, timeout: int, hkeys: seq<string>, order: seq<string>)
    requires s.Wf() && Enabled(s, Assign(keys, timeout, hkeys, order))
    ensures var (r, reply) := Step(s, shared, Assign(keys, timeout, hkeys, order));
            && r.binds == s.binds && r.now == s.now
            && if keys == [] then
                 reply == Done && r.free == [] && r.expiry == map[] && r.locks == s.locks
               else if exists k | k in keys :: !ValidKey(k) then
                 reply == Rejected && r == s
               else
                 && reply == Done
                 && r.expiry.Keys == Elements(keys)
                 && (forall k | k in keys ::
                       r.expiry[k] == if k in s.expiry then s.expiry[k] else GoodUntil(s.now, timeout))
                 && r.free == Drop(s.free, s.expiry.Keys - Elements(keys)) + order
                 && r.locks == s.locks - (Elements(keys) - s.expiry.Keys)
  {
    hide Distinct, AssignAll, Drop, ValidKey;
    AssignMeaning(s, Elements(keys), hkeys, order, GoodUntil(s.now, timeout));
    assert forall k :: k in keys <==> k in Elements(keys);
  }

  /** Free: every named lock goes, run out or not; the members among them that were held return to the tail once each,
      in the order they are first named, good for `timeout` seconds; the others stay where they are. */
  lemma FreeLeaves(s: State, shared: bool, keys: seq<string>, timeout: int)
    requires s.Wf() && Enabled(s, FreeKeys(keys, timeout))
    ensures var (r, reply) := Step(s, shared, FreeKeys(keys, timeout));
            var back := HeldAmong(s, keys);
            && reply == Done
            && r.expiry.Keys == s.expiry.Keys
            && (forall k | k in r.expiry :: r.expiry[k] == if k in back then GoodUntil(s.now, timeout) else s.expiry[k])
            && s.free <= r.free && FirstOccurrences(r.free[|s.free|..], keys, back)
            && r.locks == s.locks - Elements(keys)
            && r.binds == s.binds && r.now == s.now
  {
    hide Distinct, FreeAll, Freed, Freeable, FirstOccurrences, HeldAmong, Elements;
    FreeMeaning(s, keys, GoodUntil(s.now, timeout));
    FreedFields(s, keys, GoodUntil(s.now, timeout));
  }

  /** The members among the keys that somebody holds. */
  function HeldAmong(s: State, keys: seq<string>): set<string> {
    set k | k in s.expiry && k in keys && Held(s, k)
  }

  lemma FreedFields(s: State, keys: seq<string>, e: int)
    requires s.Wf()
    ensures var r, back := Freed(s, keys, e), HeldAmong(s, keys);
            && r.expiry.Keys == s.expiry.Keys
            && (forall k | k in r.expiry :: r.expiry[k] == if k in back then e else s.expiry[k])
            && s.free <= r.free && FirstOccurrences(r.free[|s.free|..], keys, back)
            && r.locks == s.locks - Elements(keys)
            && r.binds == s.binds && r.now == s.now
  {
    hide Distinct, Pick, FirstOccurrences, Held;
    var back := HeldAmong(s, keys);
    forall k | k in s.expiry
      ensures s.Locked(k) <==> Held(s, k)
    {
      SameTests(s, k, "");
    }
    PickAgree(keys, LockedMembers(s), back);
    PickIsFirst(keys, back);
    var added := Pick(keys, back);
    assert (s.free + added)[|s.free|..] == added;
  }

  /** Gc: of the scanned members those held or run out leave the list, the run out leave the pool, and those off the
      list that are neither return to the tail in scan order. */
  lemma GcLeaves(s: State, shared: bool, scan: seq<string>)
    requires s.Wf() && Enabled(s, Gc(scan))
    ensures var (r, reply) := Step(s, shared, Gc(scan));
            var bad := set k | k in scan && (Held(s, k) || RunOut(s, k));
            && reply == Done
            && r.expiry == s.expiry - (set k | k in scan && RunOut(s, k))
            && r.free == Drop(s.free, bad) + Drop(scan, bad + Elements(s.free))
            && r.locks == s.locks && r.binds == s.binds && r.now == s.now
  {
    hide Distinct, GcAll, Drop, Pick, StaleIn, IdleIn, ExpiredIn, Held, RunOut;
    GcMeaning(s, scan);
    ScannedSets(s, scan);
    var bad := set k | k in scan && (Held(s, k) || RunOut(s, k));
    PickIsDrop(scan, IdleIn(s, scan), bad + Elements(s.free));
  }

  lemma ScannedSets(s: State, scan: seq<string>)
    requires forall k | k in scan :: k in s.expiry
    ensures StaleIn(s, scan) == set k | k in scan && (Held(s, k) || RunOut(s, k))
    ensures ExpiredIn(s, scan) == set k | k in scan && RunOut(s, k)
    ensures forall k | k in scan :: k in IdleIn(s, scan) <==> !(Held(s, k) || RunOut(s, k) || k in s.free)
  {
    hide Held, RunOut;
    forall k | k in scan
      ensures k in s.expiry && (s.Expired(k) <==> RunOut(s, k)) && (s.Stale(k) <==> Held(s, k) || RunOut(s, k))
    {
      SameTests(s, k, "");
    }
  }

  /** Clear and the direct calls. */
  lemma DirectLeaves(s: State, shared: bool, k: string, ttl: Option<int>, ms: nat)
    requires s.Wf()
    ensures Step(s, shared, ClearPool) == (s.(free := [], expiry := map[]), Done)
    ensures Step(s, shared, Tick(ms)) == (s.(now := s.now + ms), Done)
    ensures Step(s, shared, Unlock(k)) == (s.(locks := s.locks - {k}), Done)
    ensures Step(s, shared, UpdateLock(k, ttl))
            == match ttl
               case None => (s.(locks := s.locks[k := Forever]), Done)
               case Some(t) =>
                 if t <= 0 then (s, ScriptError) else (s.(locks := s.locks[k := Until(s.now + 1000 * t)]), Done)
  {
  }

  // ---------------------------------------------------------------- deadlines over runs

  lemma MallocLocks(s: State, shared: bool, timeout: int, name: string, cacheTimeout: int, k: string)
    requires s.Wf() && (shared || MallocKey(s, shared, timeout, name, cacheTimeout).1 != Granted(k))
    ensures var r := MallocKey(s, shared, timeout, name, cacheTimeout).0;
            && (k in r.locks <==> k in s.locks) && (k in r.locks ==> r.locks[k] == s.locks[k]) && r.now == s.now
  {
    hide Distinct, Pop, StaleHeads;
    PopMeaning(s);
    PopMeaning(s.(binds := s.binds - {name}));
  }

  /** Granting k in exclusive mode, or locking it directly. */
  ghost predicate Sets(s: State, shared: bool, op: Op, k: string)
    requires s.Wf() && Enabled(s, op)
  {
    Relocks(op, k) || (!shared && Step(s, shared, op).1 == Granted(k))
  }

  /** No other call sets a lock, and besides releases none removes one. */
  lemma LockStep(s: State, shared: bool, op: Op, k: string)
    requires s.Wf() && Enabled(s, op) && !Sets(s, shared, op, k)
    ensures var r := Step(s, shared, op).0;
            && (k in r.locks ==> k in s.locks && r.locks[k] == s.locks[k])
            && (k in s.locks && !Releases(s, op, k) ==> k in r.locks)
            && (Releases(s, op, k) ==> k !in r.locks)
            && s.now <= r.now
  {
    hide Distinct, MallocKey, FreeAll, ExtendAll, ShrinkAll, AssignAll, GcAll, ValidKey, FirstOccurrences, Drop, RunOut,
         Freeable;
    match op {
      case Malloc(timeout, name, cacheTimeout) =>
        MallocLocks(s, shared, timeout, name, cacheTimeout, k);
      case FreeKeys(keys, timeout) =>
        FreeLeaves(s, shared, keys, timeout);
      case Extend(keys, timeout) =>
        ExtendLeaves(s, shared, keys, timeout);
      case Shrink(keys) =>
        ShrinkLeaves(s, shared, keys);
      case Assign(keys, timeout, hkeys, order) =>
        AssignLeaves(s, shared, keys, timeout, hkeys, order);
      case Gc(scan) =>
        GcLeaves(s, shared, scan);
      case _ =>
    }
  }

  ghost predicate SetIn(s: State, shared: bool, ops: seq<Op>, k: string)
    requires s.Wf() && RunEnabled(s, shared, ops)
    decreases |ops|
  {
    ops != [] && (Sets(s, shared, ops[0], k) || SetIn(Step(s, shared, ops[0]).0, shared, ops[1..], k))
  }

  lemma {:induction false} LockRun(s: State, shared: bool, ops: seq<Op>, k: string)
    requires s.Wf() && RunEnabled(s, shared, ops) && !SetIn(s, shared, ops, k)
    ensures var r := Run(s, shared, ops);
            && (k in r.locks ==> k in s.locks && r.locks[k] == s.locks[k])
            && (k in s.locks && !ReleasedIn(s, shared, ops, k) ==> k in r.locks)
            && (ReleasedIn(s, shared, ops, k) ==> k !in r.locks)
            && s.now <= r.now
    decreases |ops|
  {
    hide Step, Enabled, Distinct, Releases, Sets;
    if ops == [] {
    } else {
      LockStep(s, shared, ops[0], k);
      LockRun(Step(s, shared, ops[0]).0, shared, ops[1..], k);
    }
  }

  /** A lock set for t seconds, by a grant or directly, and not set again: it is there for exactly that long unless a
      call releases it, and never longer. With no timeout it is there until released. */
  lemma LocksRunOut(s: State, shared: bool, first: Op, middle: seq<Op>, k: string, t: int)
    requires s.Wf() && Enabled(s, first)
    requires (first == UpdateLock(k, if t > 0 then Some(t) else None))
             || (!shared && first.Malloc? && first.timeout == t && Step(s, shared, first).1 == Granted(k))
    requires RunEnabled(Step(s, shared, first).0, shared, middle) && !SetIn(Step(s, shared, first).0, shared, middle, k)
    ensures var s1 := Step(s, shared, first).0;
            var r := Run(s1, shared, middle);
            r.Locked(k) <==> !ReleasedIn(s1, shared, middle, k) && (t > 0 ==> r.now < s.now + 1000 * t)
  {
    hide Run, Enabled, Distinct, MallocKey, ReleasedIn, SetIn;
    var s1 := Step(s, shared, first).0;
    LockRun(s1, shared, middle, k);
    SameTests(Run(s1, shared, middle), k, "");
    if first.Malloc? {
      GrantLocks(s, first, k);
    } else {
      DirectLeaves(s, shared, k, first.ttl, 0);
    }
  }

  /** A released key stays unlocked until somebody is given it or locks it directly. */
  lemma ReleasedStaysFree(s: State, shared: bool, first: Op, middle: seq<Op>, k: string)
    requires s.Wf() && Enabled(s, first) && Releases(s, first, k)
    requires RunEnabled(Step(s, shared, first).0, shared, middle) && !SetIn(Step(s, shared, first).0, shared, middle, k)
    ensures !Run(Step(s, shared, first).0, shared, middle).Locked(k)
  {
    hide Run, Distinct, MallocKey, ReleasedIn, SetIn, Releases, FreeAll, ExtendAll, ShrinkAll, AssignAll, GcAll;
    ReleaserSetsNothing(s, shared, first, k);
    LockStep(s, shared, first, k);
    LockRun(Step(s, shared, first).0, shared, middle, k);
  }

  lemma ReleaserSetsNothing(s: State, shared: bool, op: Op, k: string)
    requires s.Wf() && Enabled(s, op) && Releases(s, op, k)
    ensures !Sets(s, shared, op, k)
  {
    hide Distinct, MallocKey, FreeAll, ExtendAll, ShrinkAll, AssignAll, GcAll;
  }

  /** An exclusive grant and the release of it before its time: the key, bound or popped, from anywhere, is a member at
      the tail of the list, unlocked, with the expiry the release asks for. */
  lemma GrantThenFree(s: State, timeout: int, name: string, cacheTimeout: int, k: string, ms: nat, e: int)
    requires s.Wf() && MallocKey(s, false, timeout, name, cacheTimeout).1 == Granted(k)
    requires timeout > 0 ==> ms < 1000 * timeout
    ensures var t := MallocKey(s, false, timeout, name, cacheTimeout).0;
            var u := Step(t, false, Tick(ms)).0;
            && k in s.expiry && k in t.expiry && t.expiry[k] == s.expiry[k] && k !in t.free
            && Enabled(u, FreeKeys([k], e))
            && var v := Step(u, false, FreeKeys([k], e)).0;
               && v.free == t.free + [k]
               && v.expiry == t.expiry[k := GoodUntil(s.now + ms, e)]
               && v.locks == t.locks - {k}
  {
    hide Distinct, MallocKey, FreeAll, RunOut;
    var t := MallocKey(s, false, timeout, name, cacheTimeout).0;
    GrantLocks(s, Malloc(timeout, name, cacheTimeout), k);
    GrantKeepsMember(s, timeout, name, cacheTimeout, k);
    var u := Step(t, false, Tick(ms)).0;
    assert u == t.(now := t.now + ms);
    assert Held(u, k);
    SameTests(u, k, "");
    FreeLeaves(u, false, [k], e);
    var v := Step(u, false, FreeKeys([k], e)).0;
    var back := HeldAmong(u, [k]);
    assert back == {k} == Elements([k]);
    OnlyOne(v.free[|u.free|..], k, back);
    assert v.free == u.free + v.free[|u.free|..];
  }

  lemma OnlyOne(r: seq<string>, k: string, back: set<string>)
    requires back == {k} && FirstOccurrences(r, [k], back)
    ensures r == [k]
  {
    DistinctSize(r);
    assert Elements(r) == {k};
    assert r[0] in r;
  }

  lemma GrantKeepsMember(s: State, timeout: int, name: string, cacheTimeout: int, k: string)
    requires s.Wf() && MallocKey(s, false, timeout, name, cacheTimeout).1 == Granted(k)
    ensures var t := MallocKey(s, false, timeout, name, cacheTimeout).0;
            k in s.expiry && k in t.expiry && t.expiry[k] == s.expiry[k] && k !in t.free && t.now == s.now
  {
    hide Distinct, Pop, StaleHeads;
    PopMeaning(s);
    PopMeaning(s.(binds := s.binds - {name}));
    StaleHeadsMeaning(s, s.free);
    StaleHeadsMeaning(s.(binds := s.binds - {name}), s.free);
    if !Honoured(s, name) {
      KeptWithExpiry(s, StaleHeads(s, s.free));
      StaleHeadsAgree(s, s.(binds := s.binds - {name}), s.free);
      SameExpired(s, s.(binds := s.binds - {name}), s.free[..StaleHeads(s, s.free)]);
    }
  }

  /** Once a binding has run out, its name is served like no name at all: the same key or none, and the same pool. */
  lemma BindingRunsOut(s: State, shared: bool, first: Op, middle: seq<Op>, second: Op, k: string)
    requires s.Wf() && first.Malloc? && first.name != "" && Step(s, shared, first).1 == Granted(k)
    requires first.cacheTimeout > 0
    requires RunEnabled(Step(s, shared, first).0, shared, middle)
    requires forall i | 0 <= i < |middle| :: !Names(middle[i], first.name)
    requires Names(second, first.name)
    ensures var r := Run(Step(s, shared, first).0, shared, middle);
            var (named, x) := Step(r, shared, second);
            var (unnamed, y) := Step(r, shared, second.(name := ""));
            r.now >= s.now + 1000 * first.cacheTimeout ==>
              x == y && named.free == unnamed.free && named.expiry == unnamed.expiry && named.locks == unnamed.locks
  {
    hide Distinct, MallocKey;
    GrantBinds(s, shared, first.timeout, first.name, first.cacheTimeout, k);
    var s1 := Step(s, shared, first).0;
    BindingRun(s1, shared, middle, first.name);
    var r := Run(s1, shared, middle);
    if r.now >= s.now + 1000 * first.cacheTimeout {
      ServedLikeNobody(r, shared, second.timeout, second.name, second.cacheTimeout);
    }
  }

  lemma ServedLikeNobody(s: State, shared: bool, timeout: int, name: string, cacheTimeout: int)
    requires s.Wf() && Unbound(s, name)
    ensures var (a, x) := MallocKey(s, shared, timeout, name, cacheTimeout);
            var (b, y) := MallocKey(s, shared, timeout, "", cacheTimeout);
            x == y && a.free == b.free && a.expiry == b.expiry && a.locks == b.locks
  {
    hide Distinct, MallocKey, StaleHeads;
    var n := StaleHeads(s, s.free);
    IsFirstUsable(s);
    MallocFromList(s, shared, timeout, name, cacheTimeout, n);
    MallocFromList(s, shared, timeout, "", cacheTimeout, n);
  }

  lemma IsFirstUsable(s: State)
    requires s.Wf()
    ensures FirstUsable(s, StaleHeads(s, s.free))
  {
    hide Distinct, StaleHeads, Held, RunOut;
    StaleHeadsMeaning(s, s.free);
    forall i | 0 <= i < |s.free|
      ensures s.free[i] in s.expiry && (s.Stale(s.free[i]) <==> Held(s, s.free[i]) || RunOut(s, s.free[i]))
    {
      SameTests(s, s.free[i], "");
    }
  }

  /** Clear, or assign with no keys: no members are left, listed or allocated, and as long as none joins every caller,
      bound or not, comes back empty. */
  lemma ClearedStaysEmpty(s: State, shared: bool, first: Op, rest: seq<Op>, timeout: int, name: string,
                          cacheTimeout: int)
    requires s.Wf() && Enabled(s, first) && (first.ClearPool? || (first.Assign? && first.keys == []))
    requires RunEnabled(Step(s, shared, first).0, shared, rest)
    requires forall i | 0 <= i < |rest| :: Joining(rest[i]) == []
    ensures var r := Run(Step(s, shared, first).0, shared, rest);
            r.expiry == map[] && r.free == [] && MallocKey(r, shared, timeout, name, cacheTimeout).1 == Empty
  {
    hide Run, RunEnabled, Joining, Distinct;
    var s1 := Step(s, shared, first).0;
    assert s1.expiry == map[];
    MembersOfRun(s1, shared, rest);
    var r := Run(s1, shared, rest);
    assert r.expiry.Keys == {};
    assert forall i | 0 <= i < |r.free| :: r.free[i] in r.free;
    MallocOutcome(r, shared, timeout, name, cacheTimeout);
  }
}
