/** What holds over whole runs: any interleaving of calls from any number of clients, and the clock. */
module RunProperties {
  import opened Sequences
  import opened PoolEncoding
  import opened Wrappers
  import opened PoolSpec
  import opened ScriptMeaning

  // ---------------------------------------------------------------- locked members stay allocated

  /** What a caller owes while every locked member is allocated: nothing about freeing, and no direct lock on a
      free key. */
  ghost predicate Sound(s: State, op: Op) {
    match op
    case FreeKeys(_, _) => true
    case UpdateLock(k, timeout) => timeout.None? || timeout.value > 0 ==> k !in s.free
    case _ => Enabled(s, op)
  }

  lemma SoundMallocPop(s: State, shared: bool, timeout: int, name: string, cacheTimeout: int)
    requires s.Wf() && s.NoFreeLocked()
    ensures MallocPop(s, shared, timeout, name, cacheTimeout).0.NoFreeLocked()
  {
    hide Distinct, Pop, StaleHeads;
    PopMeaning(s);
    StaleHeadsMeaning(s, s.free);
    var (s1, item) := Pop(s);
    assert s1.locks == s.locks && s1.now == s.now;
    assert forall k | k in s1.free :: k in s.free;
    assert forall k | k in s1.free :: !s1.Locked(k);
    if item.Some? {
      assert !s1.Locked(item.value) && item.value !in s1.free;
    }
  }

  lemma SoundMalloc(s: State, shared: bool, timeout: int, name: string, cacheTimeout: int)
    requires s.Wf() && s.NoFreeLocked()
    ensures MallocKey(s, shared, timeout, name, cacheTimeout).0.NoFreeLocked()
  {
    hide Distinct, MallocPop;
    SoundMallocPop(s, shared, timeout, name, cacheTimeout);
    SoundMallocPop(s.(binds := s.binds - {name}), shared, timeout, name, cacheTimeout);
  }

  /** The script steps keep the condition, and under it no batch can make free_keys fail. A direct lock keeps it
      exactly when the key is not on the list. */
  lemma SoundStep(s: State, shared: bool, op: Op)
    requires s.Wf() && s.NoFreeLocked() && (Sound(s, op) || op.UpdateLock?)
    ensures Enabled(s, op)
    ensures Step(s, shared, op).0.NoFreeLocked() <==> Sound(s, op)
  {
    hide Distinct, MallocKey, FreeAll, ExtendAll, ShrinkAll, AssignAll, GcAll;
    match op {
      case Malloc(timeout, name, cacheTimeout) =>
        SoundMalloc(s, shared, timeout, name, cacheTimeout);
      case FreeKeys(keys, timeout) =>
        FreeMeaning(s, keys, TimeoutToExpiry(s.now, timeout));
      case Extend(keys, timeout) =>
        ExtendMeaning(s, keys, TimeoutToExpiry(s.now, timeout));
      case Shrink(keys) =>
        ShrinkMeaning(s, keys);
      case Assign(keys, timeout, hkeys, order) =>
        AssignMeaning(s, Elements(keys), hkeys, order, TimeoutToExpiry(s.now, timeout));
        assert forall k | k in order :: k in Elements(order);
      case Gc(scan) =>
        GcMeaning(s, scan);
      case UpdateLock(k, timeout) =>
        assert timeout.Some? ==> (Live(After(s.now, timeout.value), s.now) <==> timeout.value > 0);
      case _ =>
    }
  }

  /** The one way to get there: a direct lock on a free key, after which freeing that key is refused. */
  lemma DirectLockOnFreeKey()
    ensures var s := State([], map[], map[], map[], 0);
            var ops := [Extend(["a"], -1), UpdateLock("a", Some(10))];
            && RunEnabled(s, false, ops)
            && !Run(s, false, ops).NoFreeLocked()
            && !Enabled(Run(s, false, ops), FreeKeys(["a"], -1))
  {
    var s := State([], map[], map[], map[], 0);
    var ops := [Extend(["a"], -1), UpdateLock("a", Some(10))];
    var s1 := Step(s, false, ops[0]).0;
    assert ops[1..] == [UpdateLock("a", Some(10))];
    assert ValidKey("a");
    assert ExtendAll(s, ["a"], -1) == Add(s, "a", -1);
    assert s1.free == ["a"];
    var s2 := Step(s1, false, ops[1..][0]).0;
    assert s2.free == ["a"] && s2.Locked("a");
    assert Run(s, false, ops) == s2;
    assert "a" in ["a"] && "a" in s2.free;
  }

  ghost predicate SoundRun(s: State, shared: bool, ops: seq<Op>)
    requires s.Wf() && s.NoFreeLocked()
    decreases |ops|
  {
    ops == [] ||
    (Sound(s, ops[0]) && (SoundStep(s, shared, ops[0]); SoundRun(Step(s, shared, ops[0]).0, shared, ops[1..])))
  }

  /** So no Lua assert can fire anywhere along such a run, whatever batches are freed. */
  lemma {:induction false} SoundRunEnabled(s: State, shared: bool, ops: seq<Op>)
    requires s.Wf() && s.NoFreeLocked() && SoundRun(s, shared, ops)
    ensures RunEnabled(s, shared, ops)
    ensures Run(s, shared, ops).NoFreeLocked()
    decreases |ops|
  {
    hide Step, Sound, Enabled, Distinct;
    if ops == [] {
    } else {
      SoundStep(s, shared, ops[0]);
      SoundRunEnabled(Step(s, shared, ops[0]).0, shared, ops[1..]);
    }
  }

  // ---------------------------------------------------------------- exclusive holding

  /** The calls that take a lock away. */
  ghost predicate Releases(s: State, op: Op, k: string) {
    match op
    case FreeKeys(keys, _) => k in keys
    case Extend(keys, _) => k in keys && k !in s.expiry && forall x | x in keys :: ValidKey(x)
    case Assign(keys, _, _, _) => k in keys && k !in s.expiry && forall x | x in keys :: ValidKey(x)
    case Unlock(x) => x == k
    case _ => false
  }

  /** A direct lock the server accepts. */
  predicate Relocks(op: Op, k: string) {
    op.UpdateLock? && op.key == k && (op.ttl.None? || op.ttl.value > 0)
  }

  function GrantDeadline(now: int, timeout: int): Deadline {
    if timeout > 0 then After(now, timeout) else Forever
  }

  /** The deadline of k after one call that does not release it: a new one is set by granting it, and by a direct
      lock the server accepts. */
  function NextDeadline(s: State, op: Op, k: string, d: Deadline): Deadline
    requires s.Wf() && Enabled(s, op)
  {
    if Relocks(op, k) then (if op.ttl.None? then Forever else After(s.now, op.ttl.value))
    else if op.Malloc? && Step(s, false, op).1 == Granted(k) then GrantDeadline(s.now, op.timeout)
    else d
  }

  lemma HeldMalloc(s: State, shared: bool, timeout: int, name: string, cacheTimeout: int, k: string)
    requires s.Wf() && s.Locked(k)
    ensures var r := MallocKey(s, shared, timeout, name, cacheTimeout);
            k in r.0.locks && r.0.locks[k] == s.locks[k] && r.1 != Granted(k)
  {
    hide Distinct, Pop, StaleHeads;
    PopMeaning(s);
    PopMeaning(s.(binds := s.binds - {name}));
    StaleHeadsMeaning(s, s.free);
    StaleHeadsMeaning(s.(binds := s.binds - {name}), s.free);
  }

  /** A live lock is not handed to anybody, and only a release or a direct lock changes it. */
  lemma HeldStep(s: State, shared: bool, op: Op, k: string)
    requires s.Wf() && Enabled(s, op) && s.Locked(k) && !Releases(s, op, k)
    ensures Step(s, shared, op).1 != Granted(k)
    ensures !Relocks(op, k) ==> k in Step(s, shared, op).0.locks && Step(s, shared, op).0.locks[k] == s.locks[k]
  {
    hide Distinct, MallocKey, FreeAll, ExtendAll, ShrinkAll, AssignAll, GcAll;
    match op {
      case Malloc(timeout, name, cacheTimeout) =>
        HeldMalloc(s, shared, timeout, name, cacheTimeout, k);
      case FreeKeys(keys, timeout) =>
        FreeMeaning(s, keys, TimeoutToExpiry(s.now, timeout));
      case Extend(keys, timeout) =>
        ExtendMeaning(s, keys, TimeoutToExpiry(s.now, timeout));
      case Shrink(keys) =>
        ShrinkMeaning(s, keys);
      case Assign(keys, timeout, hkeys, order) =>
        AssignMeaning(s, Elements(keys), hkeys, order, TimeoutToExpiry(s.now, timeout));
      case Gc(scan) =>
        GcMeaning(s, scan);
      case _ =>
    }
  }

  /** Some call of the run takes the lock of k away. */
  ghost predicate ReleasedIn(s: State, shared: bool, ops: seq<Op>, k: string)
    requires s.Wf() && RunEnabled(s, shared, ops)
    decreases |ops|
  {
    ops != [] && (Releases(s, ops[0], k) || ReleasedIn(Step(s, shared, ops[0]).0, shared, ops[1..], k))
  }

  ghost predicate GrantedIn(s: State, shared: bool, ops: seq<Op>, k: string)
    requires s.Wf() && RunEnabled(s, shared, ops)
    decreases |ops|
  {
    ops != [] && (Step(s, shared, ops[0]).1 == Granted(k) || GrantedIn(Step(s, shared, ops[0]).0, shared, ops[1..], k))
  }

  /** What a grant leaves behind in exclusive mode: a lock with the asked-for deadline. */
  lemma GrantLocks(s: State, op: Op, k: string)
    requires s.Wf() && Enabled(s, op) && Step(s, false, op).1 == Granted(k)
    ensures op.Malloc? && k in Step(s, false, op).0.locks
    ensures Step(s, false, op).0.locks[k] == GrantDeadline(s.now, op.timeout)
    ensures k in s.expiry && !s.Locked(k) && k !in Step(s, false, op).0.free
  {
    hide Distinct, Pop, StaleHeads;
    PopMeaning(s);
    StaleHeadsMeaning(s, s.free);
    match op {
      case Malloc(_, name, _) =>
        var s' := s.(binds := s.binds - {name});
        PopMeaning(s');
        StaleHeadsMeaning(s', s.free);
      case _ =>
    }
  }

  lemma UngrantedMalloc(s: State, timeout: int, name: string, cacheTimeout: int, k: string)
    requires s.Wf() && k in s.locks && MallocKey(s, false, timeout, name, cacheTimeout).1 != Granted(k)
    ensures var r := MallocKey(s, false, timeout, name, cacheTimeout).0;
            k in r.locks && r.locks[k] == s.locks[k]
  {
    hide Distinct, Pop, StaleHeads;
    PopMeaning(s);
    PopMeaning(s.(binds := s.binds - {name}));
  }

  /** Unless it is released, a lock entry always carries the deadline that was set last, run out or not. */
  lemma DeadlineStep(s: State, op: Op, k: string)
    requires s.Wf() && Enabled(s, op) && k in s.locks && !Releases(s, op, k)
    ensures var r := Step(s, false, op).0;
            k in r.locks && r.locks[k] == NextDeadline(s, op, k, s.locks[k])
  {
    hide Distinct, MallocKey, FreeAll, ExtendAll, ShrinkAll, AssignAll, GcAll;
    match op {
      case Malloc(timeout, name, cacheTimeout) =>
        if Step(s, false, op).1 == Granted(k) {
          GrantLocks(s, op, k);
        } else {
          UngrantedMalloc(s, timeout, name, cacheTimeout, k);
        }
      case FreeKeys(keys, timeout) =>
        FreeMeaning(s, keys, TimeoutToExpiry(s.now, timeout));
      case Extend(keys, timeout) =>
        ExtendMeaning(s, keys, TimeoutToExpiry(s.now, timeout));
      case Shrink(keys) =>
        ShrinkMeaning(s, keys);
      case Assign(keys, timeout, hkeys, order) =>
        AssignMeaning(s, Elements(keys), hkeys, order, TimeoutToExpiry(s.now, timeout));
      case Gc(scan) =>
        GcMeaning(s, scan);
      case _ =>
    }
  }

  /** The deadline of k that was set last, if d is the one it starts with. */
  function LastDeadline(s: State, ops: seq<Op>, k: string, d: Deadline): Deadline
    requires s.Wf() && RunEnabled(s, false, ops)
    decreases |ops|
  {
    if ops == [] then d
    else LastDeadline(Step(s, false, ops[0]).0, ops[1..], k, NextDeadline(s, ops[0], k, d))
  }

  lemma {:induction false} DeadlineRun(s: State, ops: seq<Op>, k: string)
    requires s.Wf() && RunEnabled(s, false, ops) && !ReleasedIn(s, false, ops, k) && k in s.locks
    ensures var r := Run(s, false, ops);
            k in r.locks && r.locks[k] == LastDeadline(s, ops, k, s.locks[k])
    decreases |ops|
  {
    hide Step, Enabled, Distinct, Releases, NextDeadline;
    if ops == [] {
    } else {
      DeadlineStep(s, ops[0], k);
      DeadlineRun(Step(s, false, ops[0]).0, ops[1..], k);
    }
  }

  lemma {:induction false} DeadlineKept(s: State, ops: seq<Op>, k: string, d: Deadline)
    requires s.Wf() && RunEnabled(s, false, ops) && !GrantedIn(s, false, ops, k)
    requires forall i | 0 <= i < |ops| :: !Relocks(ops[i], k)
    ensures LastDeadline(s, ops, k, d) == d
    decreases |ops|
  {
    hide Step, Enabled, Distinct, Relocks;
    if ops == [] {
    } else {
      DeadlineKept(Step(s, false, ops[0]).0, ops[1..], k, d);
    }
  }

  /** Between two grants of one key either a call released it, or the deadline set last for it has passed: the one
      of the first grant, of a later grant, or of a direct lock, which a holder may use to prolong his own. With
      neither of the last two in between it is the first grant's own. */
  lemma ExclusiveHolding(s: State, first: Op, middle: seq<Op>, second: Op, k: string)
    requires s.Wf() && Enabled(s, first) && Step(s, false, first).1 == Granted(k)
    requires RunEnabled(Step(s, false, first).0, false, middle)
    requires Enabled(Run(Step(s, false, first).0, false, middle), second)
    requires Step(Run(Step(s, false, first).0, false, middle), false, second).1 == Granted(k)
    ensures first.Malloc?
    ensures var s1 := Step(s, false, first).0;
            var s2 := Run(s1, false, middle);
            var d := GrantDeadline(s.now, first.timeout);
            && (ReleasedIn(s1, false, middle, k) || !Live(LastDeadline(s1, middle, k, d), s2.now))
            && (!GrantedIn(s1, false, middle, k) && (forall i | 0 <= i < |middle| :: !Relocks(middle[i], k)) ==>
                  ReleasedIn(s1, false, middle, k)
                  || (first.timeout > 0 && s2.now >= s.now + 1000 * first.timeout))
  {
    hide Step, Enabled, Distinct, Relocks;
    GrantLocks(s, first, k);
    var s1 := Step(s, false, first).0;
    var s2 := Run(s1, false, middle);
    GrantLocks(s2, second, k);
    if !ReleasedIn(s1, false, middle, k) {
      DeadlineRun(s1, middle, k);
      if !GrantedIn(s1, false, middle, k) && forall i | 0 <= i < |middle| :: !Relocks(middle[i], k) {
        DeadlineKept(s1, middle, k, GrantDeadline(s.now, first.timeout));
      }
    }
  }

  /** In shared mode nobody gets a lock. */
  lemma SharedGrantsNoLock(s: State, timeout: int, name: string, cacheTimeout: int)
    requires s.Wf()
    ensures MallocKey(s, true, timeout, name, cacheTimeout).0.locks == s.locks
  {
    hide Distinct, Pop, StaleHeads;
    PopMeaning(s);
    PopMeaning(s.(binds := s.binds - {name}));
  }

  // ---------------------------------------------------------------- soft bindings

  /** The three outcomes of malloc, told from the state before it. A binding to a member nobody holds is honoured,
      unless the call is exclusive and its timeout is not positive: then the server refuses it. With no such binding
      the call takes the first listed key that is neither expired nor locked, and comes back empty exactly when there
      is none; a binding to a lost or held key makes no difference to that but is dropped. */
  lemma MallocOutcome(s: State, shared: bool, timeout: int, name: string, cacheTimeout: int)
    requires s.Wf()
    ensures var reply, n := MallocKey(s, shared, timeout, name, cacheTimeout).1, StaleHeads(s, s.free);
            && (reply == ScriptError <==> Honoured(s, name) && !shared && timeout <= 0)
            && (reply == Empty <==> !Honoured(s, name) && forall k | k in s.free :: s.Stale(k))
            && (Honoured(s, name) && (shared || timeout > 0) ==> reply == Granted(s.Bound(name).value))
            && n <= |s.free|
            && (!Honoured(s, name) && n < |s.free| ==> reply == Granted(s.free[n]))
            && (!Honoured(s, name) && n == |s.free| ==> reply == Empty)
    ensures s.Bound(name).Some? && !Honoured(s, name) ==>
              MallocKey(s, shared, timeout, name, cacheTimeout)
              == MallocKey(s.(binds := s.binds - {name}), shared, timeout, name, cacheTimeout)
  {
    hide Distinct, Pop, StaleHeads;
    var s' := s.(binds := s.binds - {name});
    PopMeaning(s);
    PopMeaning(s');
    StaleHeadsMeaning(s, s.free);
    StaleHeadsAgree(s, s', s.free);
    assert (forall k | k in s.free :: s.Stale(k)) <==> (forall k | k in s'.free :: s'.Stale(k));
  }

  /** What a refused call leaves behind: its key is still a member, but off the list with nobody holding it, out of
      reach of malloc by any other name until gc comes by. The binding is refreshed all the same. */
  lemma RefusedMalloc(s: State, timeout: int, name: string, cacheTimeout: int)
    requires s.Wf() && Honoured(s, name) && timeout <= 0
    ensures var r, k := MallocKey(s, false, timeout, name, cacheTimeout).0, s.Bound(name).value;
            && k in r.expiry && k !in r.free && !r.Locked(k) && r.Bound(name) == Some(k)
            && r.expiry == s.expiry && r.free == Drop(s.free, {k}) && r.locks == s.locks && r.now == s.now
  {
    hide Distinct;
  }

  /** A binding is the only way to be given an expired key, and it always works. */
  lemma ExpiredGrant(s: State, shared: bool, timeout: int, name: string, cacheTimeout: int, k: string)
    requires s.Wf() && MallocKey(s, shared, timeout, name, cacheTimeout).1 == Granted(k)
    ensures k in s.expiry && !s.Locked(k)
    ensures s.Expired(k) <==> Honoured(s, name) && s.Expired(s.Bound(name).value)
  {
    hide Distinct, Pop, StaleHeads;
    var s' := s.(binds := s.binds - {name});
    PopMeaning(s);
    PopMeaning(s');
    StaleHeadsMeaning(s, s.free);
    StaleHeadsMeaning(s', s.free);
  }

  lemma RunFirst(s: State, shared: bool, op: Op, rest: seq<Op>)
    requires s.Wf() && Enabled(s, op) && RunEnabled(Step(s, shared, op).0, shared, rest)
    ensures RunEnabled(s, shared, [op] + rest)
    ensures Run(s, shared, [op] + rest) == Run(Step(s, shared, op).0, shared, rest)
  {
    hide Step, Enabled, Distinct;
    assert ([op] + rest)[1..] == rest;
  }

  lemma RunThree(s: State, shared: bool, a: Op, b: Op, c: Op)
    requires s.Wf() && Enabled(s, a)
    requires var t := Step(s, shared, a).0; Enabled(t, b) && Enabled(Step(t, shared, b).0, c)
    ensures RunEnabled(s, shared, [a, b, c])
    ensures Run(s, shared, [a, b, c]) == Step(Step(Step(s, shared, a).0, shared, b).0, shared, c).0
  {
    hide Step, Enabled, Distinct;
    var t := Step(s, shared, a).0;
    var u := Step(t, shared, b).0;
    RunFirst(u, shared, c, []);
    RunFirst(t, shared, b, [c]);
    RunFirst(s, shared, a, [b, c]);
    assert [c] + [] == [c] && [b] + [c] == [b, c] && [a] + [b, c] == [a, b, c];
  }

  /** A pool of one key, taken by a named caller. */
  lemma OneKeyTaken(timeout: int, expiry: int)
    requires expiry == TimeoutToExpiry(0, timeout)
    ensures var s := State([], map[], map[], map[], 0);
            var op, s1 := Extend(["a"], timeout), State(["a"], map["a" := expiry], map[], map[], 0);
            Enabled(s, op) && s1.Wf() && Step(s, false, op).0 == s1
            && Step(s1, false, Malloc(1, "n", 100)).0
               == State([], map["a" := expiry], map["a" := Until(1000)], map["n" := Binding("a", Until(100000))], 0)
  {
    var s, s1 := State([], map[], map[], map[], 0), State(["a"], map["a" := expiry], map[], map[], 0);
    assert ValidKey("a");
    assert ["a"][1..] == [];
    assert ExtendAll(s, ["a"], expiry) == Add(s, "a", expiry) == s1;
    assert Pop(s1) == (s1.(free := []), Some("a"));
  }

  /** A caller whose key was freed comes back for it and asks for a permanent lock: he is refused, and so is everybody
      else, the key being neither held nor on the list. */
  lemma RefusedMallocRun()
    ensures var s, ops := State([], map[], map[], map[], 0),
                          [Extend(["a"], -1), Malloc(1, "n", 100), FreeKeys(["a"], -1)];
            && RunEnabled(s, false, ops)
            && var r := Run(s, false, ops);
               var (t, reply) := Step(r, false, Malloc(0, "n", 100));
               && r.free == ["a"] && reply == ScriptError
               && "a" in t.expiry && t.free == [] && !t.Locked("a")
               && Step(t, false, Malloc(1, "", 100)).1 == Empty
  {
    var s := State([], map[], map[], map[], 0);
    OneKeyTaken(-1, -1);
    var s2 := State([], map["a" := -1], map["a" := Until(1000)], map["n" := Binding("a", Until(100000))], 0);
    var s3 := State(["a"], map["a" := -1], map[], map["n" := Binding("a", Until(100000))], 0);
    assert Step(s2, false, FreeKeys(["a"], -1)).0 == s3 by {
      assert ["a"][1..] == [];
      assert FreeAll(s2, ["a"], -1) == FreeOne(s2, "a", -1);
    }
    RunThree(s, false, Extend(["a"], -1), Malloc(1, "n", 100), FreeKeys(["a"], -1));
    hide Run, RunEnabled, Distinct;
    RefusedMalloc(s3, 0, "n", 100);
    assert Drop(["a"], {"a"}) == [];
  }

  /** An expired key is out of reach of an unnamed caller, but not of the one bound to it. */
  lemma ExpiredGrantRun()
    ensures var s, ops := State([], map[], map[], map[], 0), [Extend(["a"], 1), Malloc(1, "n", 100), Tick(2000)];
            && RunEnabled(s, false, ops)
            && var r := Run(s, false, ops);
               && "a" in r.expiry && r.Expired("a")
               && Step(r, false, Malloc(1, "", 100)).1 == Empty
               && Step(r, false, Malloc(1, "n", 100)).1 == Granted("a")
  {
    var s := State([], map[], map[], map[], 0);
    OneKeyTaken(1, 1);
    RunThree(s, false, Extend(["a"], 1), Malloc(1, "n", 100), Tick(2000));
  }

  /** A binding that is honoured gives the same key again, wherever it stands: at the head, mid-list, or as an
      allocated member whose lock ran out. */
  lemma BoundKeyIsGranted(s: State, shared: bool, timeout: int, name: string, cacheTimeout: int, k: string)
    requires s.Wf() && s.Bound(name) == Some(k) && k in s.expiry && !s.Locked(k) && (shared || timeout > 0)
    ensures var r := MallocKey(s, shared, timeout, name, cacheTimeout);
            && r.1 == Granted(k)
            && r.0.expiry == s.expiry
            && r.0.free == (if shared then s.free else Drop(s.free, {k}))
            && (!shared ==> r.0.Locked(k))
  {
    hide Distinct;
  }

  /** After any success the name is bound to the key it got, and no other binding changed. */
  lemma GrantBinds(s: State, shared: bool, timeout: int, name: string, cacheTimeout: int, k: string)
    requires s.Wf() && name != "" && MallocKey(s, shared, timeout, name, cacheTimeout).1 == Granted(k)
    ensures var r := MallocKey(s, shared, timeout, name, cacheTimeout).0;
            && r.Bound(name) == Some(k)
            && r.binds[name].deadline == (if cacheTimeout > 0 then After(s.now, cacheTimeout) else Forever)
            && r.binds - {name} == s.binds - {name}
  {
    hide Distinct, Pop, StaleHeads;
    PopMeaning(s);
    PopMeaning(s.(binds := s.binds - {name}));
  }

  predicate Names(op: Op, name: string) {
    op.Malloc? && op.name == name
  }

  lemma BindingStep(s: State, shared: bool, op: Op, name: string)
    requires s.Wf() && Enabled(s, op) && !Names(op, name) && name in s.binds
    ensures name in Step(s, shared, op).0.binds && Step(s, shared, op).0.binds[name] == s.binds[name]
  {
    hide Distinct, Pop, FreeAll, ExtendAll, ShrinkAll, AssignAll, GcAll, StaleHeads;
    match op {
      case Malloc(timeout, other, cacheTimeout) =>
        PopMeaning(s);
        PopMeaning(s.(binds := s.binds - {other}));
      case FreeKeys(keys, timeout) =>
        FreeMeaning(s, keys, TimeoutToExpiry(s.now, timeout));
      case Extend(keys, timeout) =>
        ExtendMeaning(s, keys, TimeoutToExpiry(s.now, timeout));
      case Shrink(keys) =>
        ShrinkMeaning(s, keys);
      case Assign(keys, timeout, hkeys, order) =>
        AssignMeaning(s, Elements(keys), hkeys, order, TimeoutToExpiry(s.now, timeout));
      case Gc(scan) =>
        GcMeaning(s, scan);
      case _ =>
    }
  }

  lemma {:induction false} BindingRun(s: State, shared: bool, ops: seq<Op>, name: string)
    requires s.Wf() && RunEnabled(s, shared, ops) && name in s.binds
    requires forall i | 0 <= i < |ops| :: !Names(ops[i], name)
    ensures name in Run(s, shared, ops).binds && Run(s, shared, ops).binds[name] == s.binds[name]
    decreases |ops|
  {
    hide Step, Enabled, Distinct;
    if ops == [] {
    } else {
      BindingStep(s, shared, ops[0], name);
      BindingRun(Step(s, shared, ops[0]).0, shared, ops[1..], name);
    }
  }

  /** Affinity: a named caller that comes back before its binding runs out gets the same key again whenever the
      key is still a member and nobody holds it, whatever other callers did in between. */
  lemma Affinity(s: State, shared: bool, first: Op, middle: seq<Op>, second: Op, k: string)
    requires s.Wf() && first.Malloc? && first.name != "" && Step(s, shared, first).1 == Granted(k)
    requires RunEnabled(Step(s, shared, first).0, shared, middle)
    requires forall i | 0 <= i < |middle| :: !Names(middle[i], first.name)
    requires Names(second, first.name) && (shared || second.timeout > 0)
    ensures var s2 := Run(Step(s, shared, first).0, shared, middle);
            (first.cacheTimeout <= 0 || s2.now < s.now + 1000 * first.cacheTimeout)
            && k in s2.expiry && !s2.Locked(k) ==>
              Step(s2, shared, second).1 == Granted(k)
  {
    hide Distinct, MallocKey;
    GrantBinds(s, shared, first.timeout, first.name, first.cacheTimeout, k);
    var s1 := Step(s, shared, first).0;
    BindingRun(s1, shared, middle, first.name);
    var s2 := Run(s1, shared, middle);
    if (first.cacheTimeout <= 0 || s2.now < s.now + 1000 * first.cacheTimeout) && k in s2.expiry && !s2.Locked(k) {
      BoundKeyIsGranted(s2, shared, second.timeout, second.name, second.cacheTimeout, k);
    }
  }

  // ---------------------------------------------------------------- self-healing

  /** Every member unexpired, and on the list exactly when nobody holds it. */
  ghost predicate Healthy(s: State) {
    forall k | k in s.expiry :: !s.Expired(k) && (k in s.free <==> !s.Locked(k))
  }

  /** One pass of gc over the whole pool, in any order, from any well-formed state, even one with locked free keys:
      exactly the expired members leave, the rest is free exactly when unlocked, and locks are not touched. */
  lemma SweepHeals(s: State, scan: seq<string>)
    requires s.Wf() && Enumerates(scan, s.expiry.Keys)
    ensures Enabled(s, Gc(scan))
    ensures var r := GcAll(s, scan);
            && r.Wf() && Healthy(r) && r.NoFreeLocked()
            && (forall k :: k in r.expiry <==> k in s.expiry && !s.Expired(k))
            && (forall k | k in r.expiry :: r.expiry[k] == s.expiry[k])
            && (forall k :: k in r.free <==> k in s.expiry && !s.Stale(k))
            && r.locks == s.locks && r.binds == s.binds && r.now == s.now
  {
    hide Distinct;
    assert forall k :: k in scan <==> k in Elements(scan);
    GcMeaning(s, scan);
  }

  /** The classification does not depend on the scan order. */
  lemma SweepOrderIrrelevant(s: State, a: seq<string>, b: seq<string>)
    requires s.Wf() && Enumerates(a, s.expiry.Keys) && Enumerates(b, s.expiry.Keys)
    ensures GcAll(s, a).expiry == GcAll(s, b).expiry
    ensures Elements(GcAll(s, a).free) == Elements(GcAll(s, b).free)
  {
    SweepHeals(s, a);
    SweepHeals(s, b);
  }

  /** Passes over disjoint parts of the pool add up to one pass over both. */
  lemma {:induction false} PassesAddUp(s: State, a: seq<string>, b: seq<string>)
    requires s.Wf() && Distinct(a + b) && forall k | k in a + b :: k in s.expiry
    ensures Distinct(a) && Distinct(b)
    ensures forall k | k in b :: k in GcAll(s, a).expiry
    ensures GcAll(s, a + b) == GcAll(GcAll(s, a), b)
    decreases |a|
  {
    assert (a + b)[..|a|] == a && (a + b)[|a|..] == b;
    assert Distinct(a) && Distinct(b);
    hide Distinct, CheckHealth;
    if a == [] {
      assert a + b == b;
    } else {
      DistinctAround(a + b, 0);
      assert (a + b)[1..] == a[1..] + b;
      assert (a + b)[0] == a[0];
      assert forall k | k in a[1..] + b :: k in a + b && k != a[0];
      PassesAddUp(CheckHealth(s, a[0]), a[1..], b);
    }
  }

  /** A healthy pool is a fixed point: a pass over any of its members, in any order, changes nothing. */
  lemma {:induction false} HealthyIsStable(s: State, scan: seq<string>)
    requires s.Wf() && Healthy(s) && Enabled(s, Gc(scan))
    ensures GcAll(s, scan) == s
  {
    hide Distinct, GcAll;
    GcMeaning(s, scan);
    assert ExpiredIn(s, scan) == {} && IdleIn(s, scan) == {};
    RemoveTwice(s.expiry, {}, {});
    DropNothing(s.free, StaleIn(s, scan));
    PickNothing(scan);
  }

  lemma SecondSweepIsIdle(s: State, a: seq<string>, b: seq<string>)
    requires s.Wf() && Enumerates(a, s.expiry.Keys) && Enumerates(b, GcAll(s, a).expiry.Keys)
    ensures GcAll(GcAll(s, a), b) == GcAll(s, a)
  {
    SweepHeals(s, a);
    assert forall k | k in b :: k in Elements(b);
    HealthyIsStable(GcAll(s, a), b);
  }

  /** Nothing leaks: after a full pass, an unnamed malloc comes back empty exactly when every unexpired member
      is held. */
  lemma NoLeakAfterSweep(s: State, scan: seq<string>, shared: bool, timeout: int, cacheTimeout: int)
    requires s.Wf() && Enumerates(scan, s.expiry.Keys)
    ensures MallocKey(GcAll(s, scan), shared, timeout, "", cacheTimeout).1 == Empty
            <==> forall k | k in s.expiry && !s.Expired(k) :: s.Locked(k)
  {
    hide Distinct, Pop;
    SweepHeals(s, scan);
    PopMeaning(GcAll(s, scan));
  }

  // ---------------------------------------------------------------- where members come from

  /** The names a call may bring into the pool. */
  function Joining(op: Op): seq<string> {
    match op
    case Extend(keys, _) => keys
    case Assign(keys, _, _, _) => keys
    case _ => []
  }

  lemma MembersOfStep(s: State, shared: bool, op: Op)
    requires s.Wf() && Enabled(s, op)
    ensures forall k | k in Step(s, shared, op).0.expiry :: k in s.expiry || k in Joining(op)
  {
    hide Distinct, Pop, FreeAll, ExtendAll, ShrinkAll, AssignAll, GcAll, StaleHeads;
    match op {
      case Malloc(timeout, name, cacheTimeout) =>
        PopMeaning(s);
        PopMeaning(s.(binds := s.binds - {name}));
      case FreeKeys(keys, timeout) =>
        FreeMeaning(s, keys, TimeoutToExpiry(s.now, timeout));
      case Extend(keys, timeout) =>
        ExtendMeaning(s, keys, TimeoutToExpiry(s.now, timeout));
      case Shrink(keys) =>
        ShrinkMeaning(s, keys);
      case Assign(keys, timeout, hkeys, order) =>
        AssignMeaning(s, Elements(keys), hkeys, order, TimeoutToExpiry(s.now, timeout));
      case Gc(scan) =>
        GcMeaning(s, scan);
      case _ =>
    }
  }

  /** Members come from extend and assign alone: no other call, freeing an evicted key included, brings one in. */
  lemma {:induction false} MembersOfRun(s: State, shared: bool, ops: seq<Op>)
    requires s.Wf() && RunEnabled(s, shared, ops)
    ensures forall k | k in Run(s, shared, ops).expiry ::
              k in s.expiry || exists i :: 0 <= i < |ops| && k in Joining(ops[i])
    decreases |ops|
  {
    hide Step, Enabled, Distinct, Joining;
    if ops == [] {
    } else {
      var t, rest := Step(s, shared, ops[0]).0, ops[1..];
      MembersOfStep(s, shared, ops[0]);
      MembersOfRun(t, shared, rest);
      forall k | k in Run(t, shared, rest).expiry
        ensures k in s.expiry || exists i :: 0 <= i < |ops| && k in Joining(ops[i])
      {
        if k !in t.expiry {
          var i :| 0 <= i < |rest| && k in Joining(rest[i]);
          assert k in Joining(ops[i + 1]);
        } else if k !in s.expiry {
          assert k in Joining(ops[0]);
        }
      }
    }
  }
}
