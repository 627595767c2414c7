/** Where the nodes of the free list come from and go to, over runs, and the rotation of shared mode. */
module PoolCosts {
  import opened Sequences
  import opened PoolEncoding
  import opened Wrappers
  import opened PoolSpec
  import opened ScriptMeaning
  import opened RunProperties
  import opened Legibility
  import opened Modulo

  /** What the helpers count as they run: pushes by push_to_tail, stale heads skipped and usable heads taken by
      pop_from_head, nodes unlinked by set_item_allocated or dropped by clear. */
  datatype Tally = Tally(pushes: nat, skips: nat, takes: nat, unlinks: nat)

  predicate AllValid(keys: seq<string>) {
    forall k | k in keys :: ValidKey(k)
  }

  /** How many nodes a call pushes. */
  function Pushes(s: State, shared: bool, op: Op): nat
    requires s.Wf()
  {
    match op
    case Malloc(_, name, _) => if shared && !Honoured(s, name) && StaleHeads(s, s.free) < |s.free| then 1 else 0
    case FreeKeys(keys, _) => |Pick(keys, LockedMembers(s))|
    case Extend(keys, _) => if AllValid(keys) then |Pick(keys, Elements(keys) - s.expiry.Keys)| else 0
    case Assign(keys, _, _, order) => if keys != [] && AllValid(keys) then |order| else 0
    case Gc(scan) => |Pick(scan, IdleIn(s, scan))|
    case _ => 0
  }

  /** Stale heads a pop discards on its way: the part of malloc's cost that is not constant. */
  function Skips(s: State, op: Op): nat
    requires s.Wf()
  {
    if op.Malloc? && !Honoured(s, op.name) then StaleHeads(s, s.free) else 0
  }

  /** Heads a pop returns. */
  function Takes(s: State, op: Op): nat
    requires s.Wf()
  {
    if op.Malloc? && !Honoured(s, op.name) && StaleHeads(s, s.free) < |s.free| then 1 else 0
  }

  /** How many nodes a call takes out of the list without popping them. */
  function Unlinks(s: State, shared: bool, op: Op): nat
    requires s.Wf()
  {
    var onList := Elements(s.free);
    match op
    case Malloc(_, name, _) => if Honoured(s, name) && !shared then |onList * {s.Bound(name).value}| else 0
    case Shrink(keys) => |onList * Elements(keys)|
    case Assign(keys, _, _, _) =>
      if keys == [] then |s.free| else if AllValid(keys) then |onList * (s.expiry.Keys - Elements(keys))| else 0
    case ClearPool => |s.free|
    case Gc(scan) => |onList * StaleIn(s, scan)|
    case _ => 0
  }

  /** The tally after a call. */
  function Charged(t: Tally, s: State, shared: bool, op: Op): Tally
    requires s.Wf()
  {
    Tally(t.pushes + Pushes(s, shared, op), t.skips + Skips(s, op), t.takes + Takes(s, op),
          t.unlinks + Unlinks(s, shared, op))
  }

  /** What malloc is charged with, told from its reply. */
  lemma MallocCharged(s: State, shared: bool, timeout: int, name: string, cacheTimeout: int)
    requires s.Wf()
    ensures var op, reply := Malloc(timeout, name, cacheTimeout), MallocKey(s, shared, timeout, name, cacheTimeout).1;
            var popped := !Honoured(s, name) && reply != Empty;
            && Takes(s, op) == (if popped then 1 else 0)
            && Pushes(s, shared, op) == (if popped && shared then 1 else 0)
  {
    hide Distinct, Pop, StaleHeads, Popped;
    MallocOutcome(s, shared, timeout, name, cacheTimeout);
  }

  lemma MallocPopBalance(s: State, shared: bool, timeout: int, name: string, cacheTimeout: int)
    requires s.Wf()
    ensures var n, r := StaleHeads(s, s.free), MallocPop(s, shared, timeout, name, cacheTimeout).0;
            n <= |s.free| && |r.free| == if n == |s.free| then 0 else |s.free| - n - 1 + if shared then 1 else 0
  {
    hide Distinct, Pop;
    PopMeaning(s);
    StaleHeadsMeaning(s, s.free);
  }

  lemma MallocBalance(s: State, shared: bool, timeout: int, name: string, cacheTimeout: int)
    requires s.Wf()
    ensures var op, r := Malloc(timeout, name, cacheTimeout), MallocKey(s, shared, timeout, name, cacheTimeout).0;
            |s.free| + Pushes(s, shared, op) == |r.free| + Skips(s, op) + Takes(s, op) + Unlinks(s, shared, op)
  {
    hide Distinct, MallocPop, StaleHeads;
    var s' := s.(binds := s.binds - {name});
    StaleHeadsAgree(s, s', s.free);
    MallocPopBalance(s, shared, timeout, name, cacheTimeout);
    MallocPopBalance(s', shared, timeout, name, cacheTimeout);
    if Honoured(s, name) {
      DropSize(s.free, {s.Bound(name).value});
    }
  }

  /** How long the list is after each batch script. */
  lemma LengthAfterFree(s: State, keys: seq<string>, e: int)
    requires s.Wf() && Freeable(s, keys)
    ensures |FreeAll(s, keys, e).free| == |s.free| + |Pick(keys, LockedMembers(s))|
  {
    hide Distinct, FreeAll, Pick, LockedMembers;
    FreeMeaning(s, keys, e);
  }

  lemma LengthAfterExtend(s: State, keys: seq<string>, e: int)
    requires s.Wf()
    ensures |ExtendAll(s, keys, e).free| == |s.free| + |Pick(keys, Elements(keys) - s.expiry.Keys)|
  {
    hide Distinct, ExtendAll, Pick;
    ExtendMeaning(s, keys, e);
  }

  lemma LengthAfterShrink(s: State, keys: seq<string>)
    requires s.Wf()
    ensures |ShrinkAll(s, keys).free| == |s.free| - |Elements(s.free) * Elements(keys)|
  {
    hide Distinct, ShrinkAll, Drop;
    ShrinkMeaning(s, keys);
    DropSize(s.free, Elements(keys));
  }

  lemma LengthAfterAssign(s: State, wanted: set<string>, hkeys: seq<string>, order: seq<string>, e: int)
    requires s.Wf() && Enumerates(hkeys, s.expiry.Keys) && Enumerates(order, wanted - s.expiry.Keys)
    ensures |AssignAll(s, wanted, hkeys, order, e).free|
            == |s.free| - |Elements(s.free) * (s.expiry.Keys - wanted)| + |order|
  {
    hide Distinct, AssignAll, Drop;
    AssignMeaning(s, wanted, hkeys, order, e);
    DropSize(s.free, s.expiry.Keys - wanted);
  }

  lemma LengthAfterGc(s: State, scan: seq<string>)
    requires s.Wf() && Distinct(scan) && forall k | k in scan :: k in s.expiry
    ensures |GcAll(s, scan).free| == |s.free| - |Elements(s.free) * StaleIn(s, scan)| + |Pick(scan, IdleIn(s, scan))|
  {
    hide Distinct, GcAll, Drop, Pick, StaleIn, IdleIn;
    GcMeaning(s, scan);
    DropSize(s.free, StaleIn(s, scan));
  }

  /** A gc pass pushes what its first check pushes, and then what the rest of it pushes. */
  lemma GcPushesBehind(s: State, k: string, rest: seq<string>)
    requires s.Wf() && k in s.expiry && k !in rest && forall x | x in rest :: x in s.expiry
    ensures |Pick([k] + rest, IdleIn(s, [k] + rest))|
            == (if k in s.free || s.Stale(k) then 0 else 1)
               + |Pick(rest, IdleIn(CheckHealth(s, k), rest))|
  {
    hide Distinct, StaleIn, IdleIn, ExpiredIn, Pick, CheckHealth;
    ScanSets(s, k, rest);
    var idle := IdleIn(CheckHealth(s, k), rest);
    PickCons(k, rest, IdleIn(s, [k] + rest));
    assert {} + idle == idle && ({k} + idle) - {k} == idle;
  }

  lemma ExtendBalance(s: State, shared: bool, keys: seq<string>, timeout: int)
    requires s.Wf()
    ensures |s.free| + Pushes(s, shared, Extend(keys, timeout)) == |Step(s, shared, Extend(keys, timeout)).0.free|
  {
    hide Distinct, ExtendAll, AssignAll, FreeAll, ShrinkAll, GcAll, Pick, StaleIn, IdleIn, LockedMembers, ValidKey,
         Elements;
    LengthAfterExtend(s, keys, TimeoutToExpiry(s.now, timeout));
    assert AllValid(keys) <==> !exists k | k in keys :: !ValidKey(k);
  }

  lemma AssignBalance(s: State, shared: bool, keys: seq<string>, timeout: int, hkeys: seq<string>, order: seq<string>)
    requires s.Wf() && Enabled(s, Assign(keys, timeout, hkeys, order))
    ensures var op := Assign(keys, timeout, hkeys, order);
            |s.free| + Pushes(s, shared, op) == |Step(s, shared, op).0.free| + Unlinks(s, shared, op)
  {
    hide Distinct, ExtendAll, AssignAll, FreeAll, ShrinkAll, GcAll, Pick, StaleIn, IdleIn, LockedMembers, ValidKey,
         Elements;
    LengthAfterAssign(s, Elements(keys), hkeys, order, TimeoutToExpiry(s.now, timeout));
    assert AllValid(keys) <==> !exists k | k in keys :: !ValidKey(k);
  }

  /** Conservation: what was on the list plus what was pushed is what is on the list plus what was skipped,
      taken or unlinked. */
  lemma StepBalance(s: State, shared: bool, op: Op)
    requires s.Wf() && Enabled(s, op)
    ensures |s.free| + Pushes(s, shared, op)
            == |Step(s, shared, op).0.free| + Skips(s, op) + Takes(s, op) + Unlinks(s, shared, op)
  {
    hide Distinct, MallocKey, FreeAll, ExtendAll, ShrinkAll, AssignAll, GcAll, Pick, Drop, StaleHeads, StaleIn, IdleIn,
         LockedMembers, Honoured, ValidKey, AllValid, Elements;
    match op {
      case Malloc(timeout, name, cacheTimeout) =>
        MallocBalance(s, shared, timeout, name, cacheTimeout);
      case FreeKeys(keys, timeout) =>
        LengthAfterFree(s, keys, TimeoutToExpiry(s.now, timeout));
      case Extend(keys, timeout) =>
        ExtendBalance(s, shared, keys, timeout);
      case Shrink(keys) =>
        LengthAfterShrink(s, keys);
      case Assign(keys, timeout, hkeys, order) =>
        AssignBalance(s, shared, keys, timeout, hkeys, order);
      case Gc(scan) =>
        LengthAfterGc(s, scan);
      case _ =>
    }
  }

  /** Which calls are charged with nothing but pushes, or nothing but unlinking. */
  lemma Uncharged(s: State, shared: bool, op: Op)
    requires s.Wf()
    ensures !op.Malloc? ==> Skips(s, op) == Takes(s, op) == 0
    ensures op.Extend? || op.FreeKeys? ==> Unlinks(s, shared, op) == 0
    ensures op.Shrink? || op.ClearPool? ==> Pushes(s, shared, op) == 0
    ensures op.Tick? || op.UpdateLock? || op.Unlock? ==> Pushes(s, shared, op) == Unlinks(s, shared, op) == 0
  {
  }

  /** How many keys a call hands to the allocator. */
  function Supplied(shared: bool, op: Op): nat {
    match op
    case Malloc(_, _, _) => if shared then 1 else 0
    case FreeKeys(keys, _) => |keys|
    case Extend(keys, _) => |keys|
    case Assign(keys, _, _, _) => |keys|
    case Gc(scan) => |scan|
    case _ => 0
  }

  lemma PushesAreSupplied(s: State, shared: bool, op: Op)
    requires s.Wf() && Enabled(s, op)
    ensures Pushes(s, shared, op) <= Supplied(shared, op)
  {
    match op {
      case FreeKeys(keys, _) => PickDistinct(keys, LockedMembers(s));
      case Extend(keys, _) => PickDistinct(keys, Elements(keys) - s.expiry.Keys);
      case Assign(keys, _, _, order) =>
        DistinctSize(order);
        SubsetSize(Elements(order), Elements(keys));
        ElementsSize(keys);
      case Gc(scan) => PickDistinct(scan, IdleIn(s, scan));
      case _ =>
    }
  }

  function TotalSkips(s: State, shared: bool, ops: seq<Op>): nat
    requires s.Wf() && RunEnabled(s, shared, ops)
    decreases |ops|
  {
    if ops == [] then 0 else Skips(s, ops[0]) + TotalSkips(Step(s, shared, ops[0]).0, shared, ops[1..])
  }

  function TotalPushes(s: State, shared: bool, ops: seq<Op>): nat
    requires s.Wf() && RunEnabled(s, shared, ops)
    decreases |ops|
  {
    if ops == [] then 0 else Pushes(s, shared, ops[0]) + TotalPushes(Step(s, shared, ops[0]).0, shared, ops[1..])
  }

  function TotalOtherRemovals(s: State, shared: bool, ops: seq<Op>): nat
    requires s.Wf() && RunEnabled(s, shared, ops)
    decreases |ops|
  {
    if ops == [] then 0
    else Takes(s, ops[0]) + Unlinks(s, shared, ops[0]) + TotalOtherRemovals(Step(s, shared, ops[0]).0, shared, ops[1..])
  }

  function TotalSupplied(shared: bool, ops: seq<Op>): nat {
    if ops == [] then 0 else Supplied(shared, ops[0]) + TotalSupplied(shared, ops[1..])
  }

  /** Amortised cost of malloc: over any run, all the stale heads ever skipped number at most the nodes the list
      started with plus the keys ever handed in. */
  lemma {:induction false} AmortisedSkips(s: State, shared: bool, ops: seq<Op>)
    requires s.Wf() && RunEnabled(s, shared, ops)
    ensures |s.free| + TotalPushes(s, shared, ops)
            == |Run(s, shared, ops).free| + TotalSkips(s, shared, ops) + TotalOtherRemovals(s, shared, ops)
    ensures TotalPushes(s, shared, ops) <= TotalSupplied(shared, ops)
    ensures TotalSkips(s, shared, ops) <= |s.free| + TotalSupplied(shared, ops)
    decreases |ops|
  {
    hide Step, Enabled, Distinct, Skips, Pushes, Takes, Unlinks, Supplied;
    if ops == [] {
    } else {
      StepBalance(s, shared, ops[0]);
      PushesAreSupplied(s, shared, ops[0]);
      AmortisedSkips(Step(s, shared, ops[0]).0, shared, ops[1..]);
    }
  }

  // ---------------------------------------------------------------- rotation

  function Rotate(fl: seq<string>, n: nat): seq<string>
    requires n <= |fl|
  {
    fl[n..] + fl[..n]
  }

  ghost predicate AllUsable(s: State)
    requires s.Wf()
  {
    forall k | k in s.free :: !s.Stale(k)
  }

  /** n unnamed calls in a row. */
  function Unnamed(timeout: int, cacheTimeout: int, n: nat): seq<Op> {
    seq(n, _ => Malloc(timeout, "", cacheTimeout))
  }

  function Replies(s: State, shared: bool, ops: seq<Op>): seq<Reply>
    requires s.Wf() && RunEnabled(s, shared, ops)
    decreases |ops|
  {
    if ops == [] then [] else [Step(s, shared, ops[0]).1] + Replies(Step(s, shared, ops[0]).0, shared, ops[1..])
  }

  lemma RotateKeeps(fl: seq<string>, n: nat)
    requires n <= |fl|
    ensures |Rotate(fl, n)| == |fl|
    ensures forall k | k in Rotate(fl, n) :: k in fl
  {
  }

  lemma NoTurn(fl: seq<string>)
    ensures Rotate(fl, 0) == fl
  {
  }

  lemma SharedTurn(s: State, timeout: int, cacheTimeout: int)
    requires s.Wf() && AllUsable(s) && s.free != []
    ensures MallocKey(s, true, timeout, "", cacheTimeout) == (s.(free := Rotate(s.free, 1)), Granted(s.free[0]))
  {
    hide Distinct;
    var k := s.free[0];
    assert !s.Stale(k);
    assert Pop(s) == (s.(free := s.free[1..]), Some(k));
    assert s.expiry[k := s.expiry[k]] == s.expiry;
    assert s.free[..1] == [k];
  }

  /** The turn that puts the head behind the others keeps a legible list legible exactly when that key has no leading
      pipe. */
  lemma SharedTurnLegible(s: State, timeout: int, cacheTimeout: int)
    requires s.Wf() && AllUsable(s) && |s.free| > 1 && LuaLegible(s.free)
    ensures LuaLegible(MallocKey(s, true, timeout, "", cacheTimeout).0.free) <==> !LeadingPipe(s.free[0])
  {
    hide Distinct, MallocKey, LeadingPipe;
    SharedTurn(s, timeout, cacheTimeout);
    var r := Rotate(s.free, 1);
    assert r[|r| - 1] == s.free[0];
    assert forall i | 1 <= i < |r| - 1 :: r[i] == s.free[i + 1];
  }

  lemma RotateModulo(m: nat, n: nat)
    requires m > 0 && n > 0
    ensures n % m == if (n - 1) % m == m - 1 then 0 else (n - 1) % m + 1
  {
    var q, r := (n - 1) / m, (n - 1) % m;
    assert n - 1 == q * m + r;
    if r == m - 1 {
      assert n == (q + 1) * m;
      assert n % m == 0 by { ModOf(q + 1, 0, m, n); }
    } else {
      assert n == q * m + (r + 1);
      ModOf(q, r + 1, m, n);
    }
  }

  lemma RotateAgain(fl: seq<string>, j: nat)
    requires fl != [] && j < |fl|
    ensures Rotate(Rotate(fl, 1), j) == Rotate(fl, if j == |fl| - 1 then 0 else j + 1)
    ensures Rotate(fl, 1)[j] == fl[if j == |fl| - 1 then 0 else j + 1]
  {
    var g := Rotate(fl, 1);
    assert |g| == |fl|;
    assert forall i | 0 <= i < |fl| :: g[i] == fl[if i == |fl| - 1 then 0 else i + 1];
    if j < |fl| - 1 {
      assert g[j..] == fl[j + 1..] + [fl[0]];
      assert g[..j] == fl[1..j + 1];
      assert fl[..j + 1] == [fl[0]] + fl[1..j + 1];
    } else {
      assert g[j..] == [fl[0]];
      assert g[..j] == fl[1..];
    }
  }

  /** Round robin: with m usable keys on the list, the i-th of n unnamed shared calls gets key i mod m, and the list
      ends up rotated by n mod m with nothing else changed. */
  lemma {:induction false} SharedRotation(s: State, timeout: int, cacheTimeout: int, n: nat)
    requires s.Wf() && AllUsable(s) && s.free != []
    ensures var ops, m := Unnamed(timeout, cacheTimeout, n), |s.free|;
            && RunEnabled(s, true, ops)
            && Run(s, true, ops) == s.(free := Rotate(s.free, n % m))
            && Replies(s, true, ops) == seq(n, (i: nat) => Granted(s.free[i % m]))
    decreases n
  {
    hide Distinct, MallocKey, Rotate;
    var m := |s.free|;
    if n == 0 {
      NoTurn(s.free);
    } else {
      var ops, rest := Unnamed(timeout, cacheTimeout, n), Unnamed(timeout, cacheTimeout, n - 1);
      assert ops[1..] == rest;
      SharedTurn(s, timeout, cacheTimeout);
      var t := Step(s, true, ops[0]).0;
      RotateKeeps(s.free, 1);
      SharedRotation(t, timeout, cacheTimeout, n - 1);
      RotateModulo(m, n);
      RotateAgain(s.free, (n - 1) % m);
      forall i: nat | 0 < i < n
        ensures t.free[(i - 1) % m] == s.free[i % m]
      {
        RotateModulo(m, i);
        RotateAgain(s.free, (i - 1) % m);
      }
      assert 0 % m == 0;
      assert Replies(s, true, ops) == [Granted(s.free[0])] + Replies(t, true, rest);
    }
  }

  /** A full turn hands out every key once, in list order, and restores the state. */
  lemma FullTurn(s: State, timeout: int, cacheTimeout: int)
    requires s.Wf() && AllUsable(s) && s.free != []
    ensures var ops := Unnamed(timeout, cacheTimeout, |s.free|);
            && RunEnabled(s, true, ops)
            && Run(s, true, ops) == s
            && Replies(s, true, ops) == seq(|s.free|, i requires 0 <= i < |s.free| => Granted(s.free[i]))
  {
    hide Distinct, MallocKey, Run, Replies;
    var m := |s.free|;
    SharedRotation(s, timeout, cacheTimeout, m);
    ModOf(1, 0, m, m);
    NoTurn(s.free);
    forall i: nat | i < m
      ensures i % m == i
    {
      ModOf(0, i, m, i);
    }
  }
}
