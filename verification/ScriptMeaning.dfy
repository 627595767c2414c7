/** What each script amounts to, stated without its loop or recursion. */
module ScriptMeaning {
  import opened Sequences
  import opened PoolEncoding
  import opened Wrappers
  import opened PoolSpec

  function ExpiredIn(s: State, keys: seq<string>): set<string> {
    set k | k in keys && k in s.expiry && s.Expired(k)
  }

  function StaleIn(s: State, keys: seq<string>): set<string> {
    set k | k in keys && k in s.expiry && s.Stale(k)
  }

  /** Allocated members whose lock is gone. */
  function IdleIn(s: State, keys: seq<string>): set<string> {
    set k | k in keys && k in s.expiry && k !in s.free && !s.Stale(k)
  }

  function LockedMembers(s: State): set<string> {
    set k | k in s.expiry && s.Locked(k)
  }

  // ---------------------------------------------------------------- pop

  /** The stale prefix is dropped (expired keys leave the pool, locked ones stay as allocated members)
      and the first key that is neither is taken. */
  function Popped(s: State): (r: (State, Option<string>))
    requires s.Wf()
  {
    StaleHeadsMeaning(s, s.free);
    var n := StaleHeads(s, s.free);
    (s.(free := if n < |s.free| then s.free[n + 1..] else [], expiry := s.expiry - ExpiredIn(s, s.free[..n])),
     if n < |s.free| then Some(s.free[n]) else None)
  }

  lemma {:induction false} StaleHeadsMeaning(s: State, fl: seq<string>)
    requires forall k | k in fl :: k in s.expiry
    ensures var n := StaleHeads(s, fl);
            && n <= |fl|
            && (forall i | 0 <= i < n :: s.Stale(fl[i]))
            && (n < |fl| ==> !s.Stale(fl[n]))
  {
    if fl == [] || !s.Stale(fl[0]) {
    } else {
      assert forall k | k in fl[1..] :: k in fl;
      StaleHeadsMeaning(s, fl[1..]);
      assert forall i | 1 <= i < |fl| :: fl[i] == fl[1..][i - 1];
    }
  }

  function WithoutHead(s: State): (t: State)
    requires s.Wf() && s.free != [] && s.Stale(s.free[0])
    ensures t.Wf()
  {
    DistinctAround(s.free, 0);
    if s.Expired(s.free[0]) then s.(free := s.free[1..], expiry := s.expiry - {s.free[0]})
    else s.(free := s.free[1..])
  }

  lemma RestIsUntouched(s: State)
    requires s.Wf() && s.free != [] && s.Stale(s.free[0])
    ensures var t := WithoutHead(s);
            && t.free == s.free[1..] && t.locks == s.locks && t.now == s.now
            && forall x | x in s.free[1..] ::
                 x in s.expiry && x in t.expiry && t.expiry[x] == s.expiry[x] && x != s.free[0]
  {
    hide Distinct;
    DistinctAround(s.free, 0);
    assert forall x | x in s.free[1..] :: x in s.free;
  }

  lemma StaleHeadsBehind(s: State)
    requires s.Wf() && s.free != [] && s.Stale(s.free[0])
    ensures StaleHeads(s, s.free) == 1 + StaleHeads(WithoutHead(s), s.free[1..])
    ensures StaleHeads(WithoutHead(s), s.free[1..]) <= |s.free| - 1
  {
    hide Distinct, WithoutHead;
    RestIsUntouched(s);
    StaleHeadsAgree(s, WithoutHead(s), s.free[1..]);
    StaleHeadsMeaning(WithoutHead(s), s.free[1..]);
  }

  lemma PoppedBehind(s: State)
    requires s.Wf() && s.free != [] && s.Stale(s.free[0])
    ensures Popped(s) == Popped(WithoutHead(s))
  {
    hide Distinct, ExpiredIn, StaleHeads;
    var rest, t := s.free[1..], WithoutHead(s);
    StaleHeadsBehind(s);
    var n := StaleHeads(t, rest);
    PrefixBehind(s, n);
    assert n < |rest| ==> s.free[n + 1] == rest[n] && s.free[n + 2..] == rest[n + 1..];
  }

  lemma PrefixBehind(s: State, n: nat)
    requires s.Wf() && s.free != [] && s.Stale(s.free[0]) && n < |s.free|
    ensures s.expiry - ExpiredIn(s, s.free[..n + 1])
            == WithoutHead(s).expiry - ExpiredIn(WithoutHead(s), s.free[1..][..n])
  {
    hide Distinct, ExpiredIn;
    var k, rest, t := s.free[0], s.free[1..], WithoutHead(s);
    assert s.free[..n + 1] == [k] + rest[..n];
    RestIsUntouched(s);
    assert forall x | x in rest[..n] :: x in rest;
    ExpiredBehind(s, t, k, rest[..n]);
    RemoveTwice(s.expiry, {k}, ExpiredIn(t, rest[..n]));
    assert {} + ExpiredIn(t, rest[..n]) == ExpiredIn(t, rest[..n]);
  }

  lemma ExpiredBehind(s: State, t: State, k: string, rest: seq<string>)
    requires k in s.expiry && k !in rest && s.locks == t.locks && s.now == t.now
    requires forall x | x in rest :: x in s.expiry && x in t.expiry && t.expiry[x] == s.expiry[x]
    ensures ExpiredIn(s, [k] + rest) == (if s.Expired(k) then {k} else {}) + ExpiredIn(t, rest)
  {
  }

  /** A pop with a stale key in front goes on as a pop without it, one skip later; any other pop is over at once. */
  lemma PopSkips(s: State)
    requires s.Wf()
    ensures s.free == [] ==> Pop(s) == (s, None) && StaleHeads(s, s.free) == 0
    ensures s.free != [] && !s.Stale(s.free[0]) ==>
              Pop(s) == (s.(free := s.free[1..]), Some(s.free[0])) && StaleHeads(s, s.free) == 0
    ensures s.free != [] && s.Stale(s.free[0]) ==>
              Pop(s) == Pop(WithoutHead(s)) && StaleHeads(s, s.free) == 1 + StaleHeads(WithoutHead(s), s.free[1..])
  {
    hide Distinct;
    if s.free != [] && s.Stale(s.free[0]) {
      StaleHeadsBehind(s);
    }
  }

  /** Pop is Popped; it finds nothing exactly when every listed key is stale. */
  lemma {:induction false} PopMeaning(s: State)
    requires s.Wf()
    ensures Pop(s) == Popped(s)
    ensures Pop(s).1 == None <==> forall k | k in s.free :: s.Stale(k)
    decreases |s.free|
  {
    hide Distinct;
    StaleHeadsMeaning(s, s.free);
    PopMeaningAux(s);
    assert forall k | k in s.free :: exists i :: 0 <= i < |s.free| && s.free[i] == k;
  }

  lemma {:induction false} PopMeaningAux(s: State)
    requires s.Wf()
    ensures Pop(s) == Popped(s)
    decreases |s.free|
  {
    hide Distinct;
    if s.free != [] && s.Stale(s.free[0]) {
      PopMeaningAux(WithoutHead(s));
      PoppedBehind(s);
    } else {
      assert ExpiredIn(s, s.free[..0]) == {};
      RemoveTwice(s.expiry, {}, {});
    }
  }

  // ---------------------------------------------------------------- extend

  function Added(s: State, keys: seq<string>, e: int): State {
    s.(free := s.free + keys, expiry := s.expiry + AllAt(keys, e), locks := s.locks - Elements(keys))
  }

  lemma AddedBehind(s: State, k: string, rest: seq<string>, e: int)
    requires s.Wf() && k !in s.expiry
    ensures Added(s, [k] + rest, e) == Added(Add(s, k, e), rest, e)
  {
    hide Distinct;
    AllAtCons(s.expiry, k, rest, e);
    ElementsOfCons(k, rest);
    RemoveTwice(s.locks, {k}, Elements(rest));
    assert s.free + [k] + rest == s.free + ([k] + rest);
  }

  lemma AddedNothing(s: State, e: int)
    ensures Added(s, [], e) == s
  {
    AllAtCons(s.expiry, "", [], e);
    RemoveTwice(s.locks, {}, {});
    assert Elements<string>([]) == {};
  }

  lemma {:induction false} AddAllMeaning(s: State, keys: seq<string>, e: int)
    requires s.Wf() && Distinct(keys) && forall k | k in keys :: k !in s.expiry
    ensures AddAll(s, keys, e) == Added(s, keys, e)
    decreases |keys|
  {
    hide Distinct, Added;
    if keys == [] {
      AddedNothing(s, e);
    } else {
      var k, rest := keys[0], keys[1..];
      DistinctAround(keys, 0);
      assert keys == [k] + rest;
      assert forall x | x in rest :: x in keys && x != k;
      AddAllMeaning(Add(s, k, e), rest, e);
      AddedBehind(s, k, rest, e);
    }
  }

  /** New names join once each, in the order they first occur, unlocked and at the tail; every named member
      gets the new expiry; nothing else moves. */
  function Extended(s: State, keys: seq<string>, e: int): State {
    var added := Elements(keys) - s.expiry.Keys;
    s.(free := s.free + Pick(keys, added), expiry := s.expiry + AllAt(keys, e), locks := s.locks - added)
  }

  lemma ExtendedBehind(s: State, k: string, rest: seq<string>, e: int)
    requires s.Wf()
    ensures Extended(s, [k] + rest, e)
            == Extended(if k in s.expiry then s.(expiry := s.expiry[k := e]) else Add(s, k, e), rest, e)
  {
    hide Distinct, Pick, Elements, AllAt;
    var added := Elements([k] + rest) - s.expiry.Keys;
    AddedSets(s.expiry, k, rest, e);
    AllAtCons(s.expiry, k, rest, e);
    PickCons(k, rest, added);
    RemoveTwice(s.locks, {k}, added - {k});
  }

  lemma AddedSets(m: map<string, int>, k: string, rest: seq<string>, e: int)
    ensures var added := Elements([k] + rest) - m.Keys;
            if k in m then k !in added && Elements(rest) - m[k := e].Keys == added
            else k in added && Elements(rest) - m[k := e].Keys == added - {k} && {k} + (added - {k}) == added
  {
    ElementsOfCons(k, rest);
  }

  lemma ExtendedNothing(s: State, e: int)
    ensures Extended(s, [], e) == s
  {
    AllAtCons(s.expiry, "", [], e);
    RemoveTwice(s.locks, {}, {});
    assert Elements<string>([]) - s.expiry.Keys == {};
  }

  lemma {:induction false} ExtendMeaning(s: State, keys: seq<string>, e: int)
    requires s.Wf()
    ensures ExtendAll(s, keys, e) == Extended(s, keys, e)
    decreases |keys|
  {
    hide Distinct, Extended;
    if keys == [] {
      ExtendedNothing(s, e);
    } else {
      var k, rest := keys[0], keys[1..];
      assert keys == [k] + rest;
      ExtendMeaning(if k in s.expiry then s.(expiry := s.expiry[k := e]) else Add(s, k, e), rest, e);
      ExtendedBehind(s, k, rest, e);
    }
  }

  // ---------------------------------------------------------------- shrink and assign

  /** The members in D leave; locks and the order of the others stay. */
  function Shrunk(s: State, D: set<string>): State {
    s.(free := Drop(s.free, D), expiry := s.expiry - D)
  }

  lemma ShrunkTwice(s: State, k: string, D: set<string>)
    requires s.Wf()
    ensures Shrunk(Forget(s, k), D) == Shrunk(s, {k} + D)
    ensures k !in s.expiry ==> Shrunk(s, D) == Shrunk(s, {k} + D)
    ensures Shrunk(s, {}) == s
  {
    hide Distinct;
    DropTwice(s.free, {k}, D);
    RemoveTwice(s.expiry, {k}, D);
    DropNothing(s.free, {});
    RemoveTwice(s.expiry, {}, {});
    if k !in s.expiry {
      DropAgree(s.free, D, {k} + D);
      RemoveAgree(s.expiry, D, {k} + D);
    }
  }

  lemma {:induction false} ShrinkMeaning(s: State, keys: seq<string>)
    requires s.Wf()
    ensures ShrinkAll(s, keys) == Shrunk(s, Elements(keys))
    decreases |keys|
  {
    hide Shrunk, Distinct;
    if keys == [] {
      assert Elements(keys) == {};
      ShrunkTwice(s, "", {});
    } else {
      var k, rest := keys[0], keys[1..];
      assert keys == [k] + rest;
      ElementsOfCons(k, rest);
      ShrinkMeaning(if k in s.expiry then Forget(s, k) else s, rest);
      ShrunkTwice(s, k, Elements(rest));
    }
  }

  lemma {:induction false} EvictMeaning(s: State, hkeys: seq<string>, wanted: set<string>)
    requires s.Wf()
    ensures Evict(s, hkeys, wanted) == Shrunk(s, Elements(hkeys) - wanted)
    decreases |hkeys|
  {
    hide Shrunk, Distinct;
    if hkeys == [] {
      assert Elements(hkeys) - wanted == {};
      ShrunkTwice(s, "", {});
    } else {
      var k, rest := hkeys[0], hkeys[1..];
      var out := Elements(rest) - wanted;
      assert hkeys == [k] + rest;
      ElementsOfCons(k, rest);
      EvictMeaning(if k in wanted then s else Forget(s, k), rest, wanted);
      ShrunkTwice(s, k, out);
      assert Elements(hkeys) - wanted == if k in wanted then out else {k} + out;
    }
  }

  /** Membership becomes exactly the wanted set. Survivors keep their expiry, lock and relative order, evicted
      keys keep their lock, new keys follow the survivors unlocked. The order of HKEYS does not matter. */
  lemma AssignMeaning(s: State, wanted: set<string>, hkeys: seq<string>, order: seq<string>, e: int)
    requires s.Wf() && Enumerates(hkeys, s.expiry.Keys) && Enumerates(order, wanted - s.expiry.Keys)
    ensures var r := AssignAll(s, wanted, hkeys, order, e);
            && r.expiry.Keys == wanted
            && (forall k | k in wanted :: r.expiry[k] == if k in s.expiry then s.expiry[k] else e)
            && r.free == Drop(s.free, s.expiry.Keys - wanted) + order
            && r.locks == s.locks - (wanted - s.expiry.Keys)
            && r.binds == s.binds && r.now == s.now
  {
    hide Distinct;
    EvictMeaning(s, hkeys, wanted);
    assert forall k | k in order :: k in Elements(order);
    AddAllMeaning(Evict(s, hkeys, wanted), order, e);
    assert forall k :: k in order <==> k in wanted - s.expiry.Keys by {
      assert forall k :: k in order <==> k in Elements(order);
    }
  }

  // ---------------------------------------------------------------- free

  /** Every named lock goes; each member that held one returns once, at the tail, with the new expiry. */
  function Freed(s: State, keys: seq<string>, e: int): State {
    var back := Pick(keys, LockedMembers(s));
    s.(free := s.free + back, expiry := s.expiry + AllAt(back, e), locks := s.locks - Elements(keys))
  }

  lemma FreedBehind(s: State, k: string, rest: seq<string>, e: int)
    requires s.Wf() && !(s.Locked(k) && k in s.free)
    ensures Freed(s, [k] + rest, e) == Freed(FreeOne(s, k, e), rest, e)
  {
    hide Distinct;
    ElementsOfCons(k, rest);
    RemoveTwice(s.locks, {k}, Elements(rest));
    assert ([k] + rest)[1..] == rest;
    var L := LockedMembers(s);
    assert LockedMembers(FreeOne(s, k, e)) == L - {k};
    if k in L {
      AllAtCons(s.expiry, k, Pick(rest, L - {k}), e);
    } else {
      assert L - {k} == L;
    }
  }

  lemma FreedNothing(s: State, e: int)
    ensures Freed(s, [], e) == s
  {
    AllAtCons(s.expiry, "", [], e);
    RemoveTwice(s.locks, {}, {});
    assert Elements<string>([]) == {};
  }

  lemma {:induction false} FreeMeaning(s: State, keys: seq<string>, e: int)
    requires s.Wf() && Freeable(s, keys)
    ensures FreeAll(s, keys, e) == Freed(s, keys, e)
    decreases |keys|
  {
    hide Distinct, Freed;
    if keys == [] {
      FreedNothing(s, e);
    } else {
      var k, rest := keys[0], keys[1..];
      assert keys == [k] + rest;
      FreeableSplit(s, keys, 0);
      FreeOneKeepsFreeable(s, k, rest, e);
      FreeMeaning(FreeOne(s, k, e), rest, e);
      FreedBehind(s, k, rest, e);
    }
  }

  // ---------------------------------------------------------------- gc

  /** Of the scanned keys, the stale ones leave the list, the expired ones leave the pool,
      and the idle ones return to the tail in scan order. */
  function Collected(s: State, scan: seq<string>): State {
    s.(free := Drop(s.free, StaleIn(s, scan)) + Pick(scan, IdleIn(s, scan)), expiry := s.expiry - ExpiredIn(s, scan))
  }

  lemma ScanSets(s: State, k: string, rest: seq<string>)
    requires s.Wf() && k in s.expiry && k !in rest && forall x | x in rest :: x in s.expiry
    ensures var t, scan := CheckHealth(s, k), [k] + rest;
            && StaleIn(s, scan) == (if s.Stale(k) then {k} else {}) + StaleIn(t, rest)
            && ExpiredIn(s, scan) == (if s.Expired(k) then {k} else {}) + ExpiredIn(t, rest)
            && IdleIn(s, scan) == (if s.Stale(k) || k in s.free then {} else {k}) + IdleIn(t, rest)
            && k !in StaleIn(t, rest) && k !in IdleIn(t, rest)
  {
    hide Distinct;
  }

  lemma CollectedFree(s: State, k: string, rest: seq<string>)
    requires s.Wf() && k in s.expiry && k !in rest && forall x | x in rest :: x in s.expiry
    ensures Collected(s, [k] + rest).free == Collected(CheckHealth(s, k), rest).free
  {
    hide Distinct, StaleIn, IdleIn, ExpiredIn, Pick, Drop;
    ScanSets(s, k, rest);
    var t, scan := CheckHealth(s, k), [k] + rest;
    var st, idle := StaleIn(t, rest), IdleIn(t, rest);
    PickCons(k, rest, IdleIn(s, scan));
    if s.Stale(k) {
      DropTwice(s.free, {k}, st);
      if k !in s.free {
        DropNothing(s.free, {k});
      }
      assert {} + idle == idle;
    } else if k in s.free {
      assert {} + st == st && {} + idle == idle;
    } else {
      assert {} + st == st && {k} + idle - {k} == idle;
      DropConcat(s.free, [k], st);
      DropOne(k, st);
    }
  }

  lemma CollectedBehind(s: State, k: string, rest: seq<string>)
    requires s.Wf() && k in s.expiry && k !in rest && forall x | x in rest :: x in s.expiry
    ensures Collected(s, [k] + rest) == Collected(CheckHealth(s, k), rest)
  {
    CollectedFree(s, k, rest);
    hide Distinct, StaleIn, IdleIn, ExpiredIn;
    ScanSets(s, k, rest);
    var ex := ExpiredIn(CheckHealth(s, k), rest);
    RemoveTwice(s.expiry, {k}, ex);
    assert {} + ex == ex;
  }

  lemma {:induction false} GcMeaning(s: State, scan: seq<string>)
    requires s.Wf() && Distinct(scan) && forall k | k in scan :: k in s.expiry
    ensures GcAll(s, scan) == Collected(s, scan)
    decreases |scan|
  {
    hide Distinct, Collected, CheckHealth;
    if scan == [] {
      CollectedNothing(s);
    } else {
      var k, rest := scan[0], scan[1..];
      DistinctAround(scan, 0);
      assert scan == [k] + rest;
      assert forall x | x in rest :: x in scan && x != k;
      GcMeaning(CheckHealth(s, k), rest);
      CollectedBehind(s, k, rest);
    }
  }

  lemma CollectedNothing(s: State)
    ensures Collected(s, []) == s
  {
    assert StaleIn(s, []) == {} && ExpiredIn(s, []) == {};
    DropNothing(s.free, {});
    RemoveTwice(s.expiry, {}, {});
  }

  // ---------------------------------------------------------------- expiry

  /** Whole seconds on both ends: an entry given a timeout is still good more than a second before it has passed,
      and no longer once it has; an entry given none is always good. */
  lemma ExpiryRounding(now: nat, timeout: int, later: nat)
    requires now <= later
    ensures timeout > 0 && later >= now + 1000 * timeout ==> ExpiryInvalid(TimeoutToExpiry(now, timeout), later)
    ensures later <= now + 1000 * (timeout - 1) ==> !ExpiryInvalid(TimeoutToExpiry(now, timeout), later)
    ensures timeout <= 0 ==> !ExpiryInvalid(TimeoutToExpiry(now, timeout), later)
  {
    assert 1000 * (later / 1000) <= later < 1000 * (later / 1000) + 1000;
    assert 1000 * (now / 1000) <= now < 1000 * (now / 1000) + 1000;
  }
}
