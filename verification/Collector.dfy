/** The snapshot script, its flat reply, and the way from a live pool to the checker's verdict. */
module Collector {
  import opened Sequences
  import opened PoolEncoding
  import opened FreeList
  import opened PoolSpec
  import opened RunProperties
  import opened Allocator
  import opened Legibility
  import CallLaws
  import opened Diagnostics

  datatype Item = Text(s: string) | Number(n: int)

  /** EXISTS and TTL of one lock key. */
  function LockExists(locks: map<string, Deadline>, now: int, k: string): int {
    if k in locks && Live(locks[k], now) then 1 else 0
  }

  function LockTtl(locks: map<string, Deadline>, now: int, k: string): int {
    if k !in locks || !Live(locks[k], now) then -2
    else match locks[k]
         case Forever => -1
         case Until(ms) => (ms - now + 500) / 1000
  }

  function Row(pool: map<string, string>, locks: map<string, Deadline>, now: int, k: string): (r: seq<Item>)
    requires k in pool
    ensures |r| == 4
  {
    [Text(k), Text(pool[k]), Number(LockExists(locks, now, k)), Number(LockTtl(locks, now, k))]
  }

  /** raw is the reply for the first n keys of `order`: three fixed items, then four per key. */
  ghost predicate Flat(raw: seq<Item>, pool: map<string, string>, locks: map<string, Deadline>, now: int,
                       order: seq<string>, n: nat)
  {
    && n <= |order| && |raw| == 3 + 4 * n
    && raw[2] == Number(now / 1000)
    && forall j :: 0 <= j < n ==> order[j] in pool && RowAt(raw, j) == Row(pool, locks, now, order[j])
  }

  function RowAt(raw: seq<Item>, j: nat): (r: seq<Item>)
    requires 3 + 4 * j + 4 <= |raw|
    ensures |r| == 4
  {
    raw[3 + 4 * j..3 + 4 * j + 4]
  }

  /** `order` is the order HGETALL returns. */
  method TakeSnapshot(a: RedisAllocator, order: seq<string>) returns (raw: seq<Item>)
    requires Enumerates(order, a.pool.Keys)
    ensures Flat(raw, a.pool, a.locks, a.now, order, |order|)
    ensures raw[0] == Text(a.head) && raw[1] == Text(a.tail)
  {
    raw := [Text(a.head), Text(a.tail), Number(a.now / 1000)];
    assert forall k | k in order :: k in Elements(order);
    for i := 0 to |order|
      invariant Flat(raw, a.pool, a.locks, a.now, order, i)
      invariant raw[0] == Text(a.head) && raw[1] == Text(a.tail)
    {
      ghost var before := raw;
      raw := raw + Row(a.pool, a.locks, a.now, order[i]);
      forall j | 0 <= j <= i
        ensures order[j] in a.pool && RowAt(raw, j) == Row(a.pool, a.locks, a.now, order[j])
      {
        if j < i {
          assert RowAt(raw, j) == RowAt(before, j);
        }
      }
    }
  }

  predicate Shaped(raw: seq<Item>) {
    && |raw| >= 3 && (|raw| - 3) % 4 == 0
    && raw[0].Text? && raw[1].Text? && raw[2].Number?
    && forall j | 0 <= j < (|raw| - 3) / 4 :: RowShaped(raw, j)
  }

  predicate RowShaped(raw: seq<Item>, j: nat)
    requires 3 + 4 * j + 4 <= |raw|
  {
    raw[3 + 4 * j].Text? && raw[3 + 4 * j + 1].Text? && raw[3 + 4 * j + 2].Number? && raw[3 + 4 * j + 3].Number?
  }

  /** What the snapshot says about the keys of the first n rows. */
  ghost predicate Reads(s: Snapshot, pool: map<string, string>, locks: map<string, Deadline>, now: int,
                        keys: set<string>)
  {
    && s.entries.Keys == s.lockKeys.Keys == s.lockTtls.Keys == keys <= pool.Keys
    && forall k | k in keys ::
         s.entries[k] == PySplit(pool[k])
         && s.lockKeys[k] == (k in locks && Live(locks[k], now))
         && s.lockTtls[k] == LockTtl(locks, now, k)
  }

  /** Read the flat reply back, four items at a time. `clock` stands in for a server time of zero. */
  method CollectRawPool(raw: seq<Item>, shared: bool, clock: int, ghost pool: map<string, string>,
                        ghost locks: map<string, Deadline>, ghost now: int, ghost order: seq<string>)
    returns (s: Snapshot)
    requires Shaped(raw) && Flat(raw, pool, locks, now, order, |order|)
    ensures s.head == raw[0].s && s.tail == raw[1].s && s.shared == shared
    ensures s.now == if now / 1000 == 0 then clock else now / 1000
    ensures Reads(s, pool, locks, now, Elements(order))
  {
    hide Flat, Row, RowShaped, Reads, LockTtl, LockExists, PySplit;
    FlatSize(raw, pool, locks, now, order);
    ReadsNothing(raw[0].s, raw[1].s, shared, if raw[2].n == 0 then clock else raw[2].n, pool, locks, now);
    assert order[..0] == [];
    var time := if raw[2].n == 0 then clock else raw[2].n;
    var entries: Hash, lockKeys: map<string, bool>, lockTtls: map<string, int> := map[], map[], map[];
    var index := 3;
    ghost var j := 0;
    while index < |raw|
      invariant 0 <= j <= |order| && index == 3 + 4 * j
      invariant Reads(Snapshot(raw[0].s, raw[1].s, entries, lockKeys, lockTtls, shared, time), pool, locks, now,
                      Elements(order[..j]))
      decreases |raw| - index
    {
      RowItems(raw, pool, locks, now, order, j);
      var key, value := raw[index].s, raw[index + 1].s;
      var locked, ttl := raw[index + 2].n != 0, raw[index + 3].n;
      ReadsOneMore(Snapshot(raw[0].s, raw[1].s, entries, lockKeys, lockTtls, shared, time), pool, locks, now,
                   Elements(order[..j]), key);
      entries := entries[key := PySplit(value)];
      lockKeys := lockKeys[key := locked];
      lockTtls := lockTtls[key := ttl];
      assert order[..j + 1] == order[..j] + [order[j]];
      assert Elements(order[..j + 1]) == Elements(order[..j]) + {key};
      index, j := index + 4, j + 1;
    }
    assert order[..j] == order;
    s := Snapshot(raw[0].s, raw[1].s, entries, lockKeys, lockTtls, shared, time);
  }

  lemma FlatSize(raw: seq<Item>, pool: map<string, string>, locks: map<string, Deadline>, now: int, order: seq<string>)
    requires Flat(raw, pool, locks, now, order, |order|)
    ensures |raw| == 3 + 4 * |order| && raw[2] == Number(now / 1000)
  {
  }

  lemma RowItems(raw: seq<Item>, pool: map<string, string>, locks: map<string, Deadline>, now: int,
                 order: seq<string>, j: nat)
    requires Flat(raw, pool, locks, now, order, |order|) && j < |order|
    ensures |raw| >= 3 + 4 * j + 4 && order[j] in pool
    ensures raw[3 + 4 * j] == Text(order[j]) && raw[3 + 4 * j + 1] == Text(pool[order[j]])
    ensures raw[3 + 4 * j + 2] == Number(LockExists(locks, now, order[j]))
    ensures raw[3 + 4 * j + 3] == Number(LockTtl(locks, now, order[j]))
  {
    var row := RowAt(raw, j);
    assert row == Row(pool, locks, now, order[j]);
    assert row[0] == raw[3 + 4 * j] && row[1] == raw[3 + 4 * j + 1];
    assert row[2] == raw[3 + 4 * j + 2] && row[3] == raw[3 + 4 * j + 3];
  }

  lemma ReadsNothing(head: string, tail: string, shared: bool, time: int, pool: map<string, string>,
                     locks: map<string, Deadline>, now: int)
    ensures Reads(Snapshot(head, tail, map[], map[], map[], shared, time), pool, locks, now, Elements([]))
  {
    assert Elements<string>([]) == {};
  }

  lemma ReadsOneMore(s: Snapshot, pool: map<string, string>, locks: map<string, Deadline>, now: int,
                     keys: set<string>, k: string)
    requires Reads(s, pool, locks, now, keys) && k in pool
    ensures Reads(s.(entries := s.entries[k := PySplit(pool[k])],
                     lockKeys := s.lockKeys[k := LockExists(locks, now, k) != 0],
                     lockTtls := s.lockTtls[k := LockTtl(locks, now, k)]),
                  pool, locks, now, keys + {k})
  {
    hide PySplit, LockTtl;
  }

  // ---------------------------------------------------------------- from a live pool to a verdict

  /** What the diagnostics parser sees of the strings. */
  lemma SeenByParser(pool: map<string, string>, m: Hash, parsed: Hash)
    requires Spells(pool, m) && parsed.Keys == m.Keys && forall k | k in parsed :: parsed[k] == PySplit(pool[k])
    ensures parsed == PyView(m)
  {
    hide Spells, PySplit, PySeen, Join;
    forall k | k in m
      ensures parsed[k] == PyView(m)[k]
    {
      KeyIsValid(pool, m, k);
      PointerHasNoSep(m[k].prev);
      PointerHasNoSep(m[k].next);
      PyReads(m[k]);
    }
  }

  /** The parser sees the entries the scripts wrote, and any list at all, exactly when no listed key but the last has
      a trailing pipe. */
  lemma ParsedAsWritten(pool: map<string, string>, m: Hash, head: string, tail: string, fl: seq<string>, parsed: Hash)
    requires Spells(pool, m) && Linked(m, head, tail, fl)
    requires parsed.Keys == m.Keys && forall k | k in parsed :: parsed[k] == PySplit(pool[k])
    ensures parsed == m <==> PyLegible(fl)
    ensures (exists gl :: Linked(parsed, head, tail, gl)) <==> PyLegible(fl)
  {
    hide Spells, PySplit, Linked, PyLegible, PyView, Named;
    SeenByParser(pool, m, parsed);
    PySeesList(m, head, tail, fl);
  }

  /** A listed node never looks allocated to the parser, so the head of a list is no dangling pair. */
  lemma ParsedNodeIsNoMarker(m: Hash, head: string, tail: string, fl: seq<string>, k: string)
    requires Named(m) && Linked(m, head, tail, fl) && k in fl
    ensures k in m && !IsMarker(PyView(m)[k])
  {
    var i :| 0 <= i < |fl| && fl[i] == k;
    NeighboursInHash(m, head, tail, fl, i);
    if TrailingPipe(m[k].prev) {
      assert PySeen(m[k]).next[0] == '|';
    }
  }

  lemma Verdict(m: Hash, s: Snapshot, fl: seq<string>)
    requires Named(m) && Linked(m, s.head, s.tail, fl) && s.entries == PyView(m)
    ensures GoodList(s) || DanglingPair(s) <==> PyLegible(fl) && forall k | k in fl :: !s.Locked(k) && !IsNote(k)
  {
    hide Named, Proper, Distinct, IsNote, PySeen, PyLegible, Linked, IsMarker;
    PySeesList(m, s.head, s.tail, fl);
    NoDanglingPair(m, s, fl);
    NamedIsProper(m, s.head, s.tail, fl);
    if GoodList(s) {
      var gl :| Linked(s.entries, s.head, s.tail, gl) && Proper(gl) && forall k | k in gl :: !s.Locked(k) && !IsNote(k);
      LinkedUnique(m, s.head, s.tail, s.tail, fl, gl);
    }
  }

  lemma NoDanglingPair(m: Hash, s: Snapshot, fl: seq<string>)
    requires Named(m) && Linked(m, s.head, s.tail, fl) && s.entries == PyView(m)
    ensures !DanglingPair(s)
  {
    hide Named, Distinct, Linked, PySeen, IsMarker;
    EndsOfList(m, s.head, s.tail, fl);
    NamesAreNotEmpty(m);
    if fl == [] {
    } else {
      ParsedNodeIsNoMarker(m, s.head, s.tail, fl, s.head);
    }
  }

  lemma NamesAreNotEmpty(m: Hash)
    requires Named(m)
    ensures "" !in m
  {
  }

  /** The whole chain: encode, snapshot, flatten, unflatten, parse, check. The verdict on a pool whose strings spell
      out a list is "no violation" exactly when no free key is locked, none looks like a checker's note, and none but
      the last ends in a pipe. */
  method Diagnose(a: RedisAllocator, order: seq<string>, clock: int) returns (violations: seq<Violation>)
    requires a.Spelled() && Enumerates(order, a.pool.Keys)
    ensures violations == [] <==>
              a.Abs().NoFreeLocked() && (forall k | k in a.fl :: !IsNote(k)) && PyLegible(a.fl)
  {
    hide Linked, ExpiriesOf, Named, Distinct, Spells, PySplit, IsNote, Flat, PyLegible, PyView, LockTtl;
    var raw := TakeSnapshot(a, order);
    FlatIsShaped(raw, a.pool, a.locks, a.now, order);
    var s := CollectRawPool(raw, a.shared, clock, a.pool, a.locks, a.now, order);
    SeenByParser(a.pool, a.entries, s.entries);
    ListedInPool(a);
    assert forall k | k in a.fl :: s.Locked(k) <==> a.Abs().Locked(k);
    Verdict(a.entries, s, a.fl);
    violations := CheckInvariants(s);
  }

  lemma ListedInPool(a: RedisAllocator)
    requires a.Spelled()
    ensures forall k | k in a.fl :: k in a.pool
  {
  }

  lemma FlatIsShaped(raw: seq<Item>, pool: map<string, string>, locks: map<string, Deadline>, now: int,
                     order: seq<string>)
    requires Flat(raw, pool, locks, now, order, |order|) && raw[0].Text? && raw[1].Text?
    ensures Shaped(raw)
  {
    forall j | 0 <= j < |order|
      ensures RowShaped(raw, j)
    {
      RowItems(raw, pool, locks, now, order, j);
    }
  }

  // ---------------------------------------------------------------- from a live pool to its counters

  /** What the snapshot says about a lock, in milliseconds: -2 for none, -1 for one without a deadline, else the time
      that remains, to the nearest second. */
  lemma RemainingTime(locks: map<string, Deadline>, now: int, k: string)
    ensures var ttl := LockTtl(locks, now, k);
            if k !in locks || (locks[k] != Forever && locks[k].ms <= now) then
              ttl == -2 && LockExists(locks, now, k) == 0
            else
              && LockExists(locks, now, k) == 1
              && (locks[k] == Forever ==> ttl == -1)
              && (locks[k] != Forever ==> ttl >= 0 && locks[k].ms - now - 500 <= 1000 * ttl <= locks[k].ms - now + 500)
  {
  }

  lemma FreeNodesAreListed(m: Hash, head: string, tail: string, fl: seq<string>)
    requires Named(m) && Linked(m, head, tail, fl)
    ensures FreeNodes(PyView(m)) == Elements(fl) && |Elements(fl)| == |fl|
  {
    hide Named;
    DistinctSize(fl);
    forall k | k in m
      ensures k in fl <==> !IsMarker(PyView(m)[k])
    {
      if k in fl {
        ParsedNodeIsNoMarker(m, head, tail, fl, k);
      }
    }
  }

  /** The counters of a live pool: its members, the list, the locks that are in force, those without a deadline, the
      members neither listed nor held, and the entries that have run out. */
  method Summarize(a: RedisAllocator, order: seq<string>, clock: int) returns (d: PoolDiagnostics)
    requires a.Spelled() && Enumerates(order, a.pool.Keys)
    ensures d.total == |a.pool| && d.free == |a.fl| && d.allocatedMarkers == |a.pool| - |a.fl|
    ensures d.locked == |set k | k in a.pool && CallLaws.Held(a.Abs(), k)|
    ensures d.permanent == |set k | k in a.pool && k in a.locks && a.locks[k] == Forever|
    ensures d.reclaimable == |set k | k in a.pool && k !in a.fl && !CallLaws.Held(a.Abs(), k)|
    ensures var time := if a.now / 1000 == 0 then clock else a.now / 1000;
            d.expired == |set k | k in a.pool && 0 < a.expiries[k] <= time|
  {
    hide Linked, ExpiriesOf, Named, Distinct, Spells, PySplit, Flat, PyView, LockTtl;
    var raw := TakeSnapshot(a, order);
    FlatIsShaped(raw, a.pool, a.locks, a.now, order);
    var s := CollectRawPool(raw, a.shared, clock, a.pool, a.locks, a.now, order);
    FlatSize(raw, a.pool, a.locks, a.now, order);
    SeenByParser(a.pool, a.entries, s.entries);
    FreeNodesAreListed(a.entries, a.head, a.tail, a.fl);
    LiveSets(a, s);
    d := SummarizePool(s);
  }

  lemma LiveSets(a: RedisAllocator, s: Snapshot)
    requires a.Spelled() && s.entries == PyView(a.entries)
    requires Reads(s, a.pool, a.locks, a.now, a.pool.Keys)
    requires FreeNodes(s.entries) == Elements(a.fl)
    ensures |s.entries| == |a.pool|
    ensures LockedEntries(s) == set k | k in a.pool && CallLaws.Held(a.Abs(), k)
    ensures PermanentEntries(s) == set k | k in a.pool && k in a.locks && a.locks[k] == Forever
    ensures Reclaimable(s) == set k | k in a.pool && k !in a.fl && !CallLaws.Held(a.Abs(), k)
    ensures ExpiredEntries(s) == set k | k in a.pool && 0 < a.expiries[k] <= s.now
  {
    hide Linked, Named, Distinct, Spells, PySplit, LockTtl, LockExists;
    assert s.entries.Keys == a.pool.Keys;
    forall k | k in a.pool
      ensures s.Locked(k) <==> CallLaws.Held(a.Abs(), k)
      ensures s.lockTtls[k] == -1 <==> k in a.locks && a.locks[k] == Forever
      ensures s.entries[k].expiry == a.expiries[k]
      ensures IsMarker(s.entries[k]) <==> k !in a.fl
    {
      RemainingTime(a.locks, a.now, k);
      assert k in FreeNodes(s.entries) <==> k in Elements(a.fl);
    }
  }

  // ---------------------------------------------------------------- instances and runs

  /** A false alarm: two valid keys, one batch, a list the scripts can read, nothing locked. */
  method FalseAlarm() returns (r: Reply, items: seq<string>, violations: seq<Violation>)
    ensures r == Done && items == ["a|", "b"] && violations != []
  {
    hide Linked, ExpiriesOf, Named, Distinct, Spells, Encodes;
    var a := new RedisAllocator(false, 0);
    r := a.Extend(["a|", "b"], -1);
    FalseAlarmList();
    items := a.GetFreeList();
    var order := Enumerate(a.pool.Keys);
    violations := Diagnose(a, order, 0);
  }

  lemma FalseAlarmList()
    ensures var (t, r) := Step(State([], map[], map[], map[], 0), false, Op.Extend(["a|", "b"], -1));
            t.free == ["a|", "b"] && r == Done
    ensures LuaLegible(["a|", "b"]) && !PyLegible(["a|", "b"])
  {
    var s, keys := State([], map[], map[], map[], 0), ["a|", "b"];
    assert ValidKey("a|") && ValidKey("b");
    assert keys[1..] == ["b"] && ["b"][1..] == [];
    assert ExtendAll(s, keys, -1) == Add(Add(s, "a|", -1), "b", -1);
    assert TrailingPipe(keys[0]) && !LeadingPipe(keys[1]);
  }

  /** Another: one valid key that looks like one of the checker's notes. */
  method NoteAlarm() returns (r: Reply, items: seq<string>, violations: seq<Violation>)
    ensures r == Done && items == ["<a"] && violations != []
  {
    hide Linked, ExpiriesOf, Named, Distinct, Spells, Encodes;
    var a := new RedisAllocator(false, 0);
    r := a.Extend(["<a"], -1);
    NoteAlarmList();
    items := a.GetFreeList();
    var order := Enumerate(a.pool.Keys);
    violations := Diagnose(a, order, 0);
  }

  lemma NoteAlarmList()
    ensures var (t, r) := Step(State([], map[], map[], map[], 0), false, Op.Extend(["<a"], -1));
            t.free == ["<a"] && r == Done
    ensures LuaLegible(["<a"]) && IsNote("<a") && "<a" in ["<a"]
  {
    var s, keys := State([], map[], map[], map[], 0), ["<a"];
    assert ValidKey("<a");
    assert keys[1..] == [];
    assert ExtendAll(s, keys, -1) == Add(s, "<a", -1);
  }

  /** After any sound and legible run, the diagnostics report nothing exactly when no listed key starts with '<' and
      none but the last ends in a pipe. */
  method RunAndDiagnose(a: RedisAllocator, ops: seq<Op>, clock: int) returns (violations: seq<Violation>)
    requires a.Spelled() && a.Abs().NoFreeLocked() && SoundRun(a.Abs(), a.shared, ops)
    requires RunEnabled(a.Abs(), a.shared, ops) && LegibleRun(a.Abs(), a.shared, ops)
    modifies a
    ensures a.Spelled() && (violations == [] <==> (forall k | k in a.fl :: !IsNote(k)) && PyLegible(a.fl))
  {
    hide Linked, ExpiriesOf, Named, Distinct, Spells, Encodes, LuaLegible, PyLegible, Run, SoundRun, IsNote;
    SoundRunEnabled(a.Abs(), a.shared, ops);
    a.Execute(ops);
    var order := Enumerate(a.pool.Keys);
    violations := Diagnose(a, order, clock);
  }

  /** A key with no pipe at either end and no '<' at its start. */
  predicate Tidy(k: string) {
    !LeadingPipe(k) && !TrailingPipe(k) && !IsNote(k)
  }

  /** A caller's way to be sure of that verdict: tidy members, and tidy keys joining. */
  lemma TidyRun(s: State, shared: bool, ops: seq<Op>)
    requires s.Wf() && s.NoFreeLocked() && SoundRun(s, shared, ops)
    requires forall k | k in s.expiry :: Tidy(k)
    requires forall i | 0 <= i < |ops| :: forall k | k in Joining(ops[i]) :: Tidy(k)
    ensures RunEnabled(s, shared, ops) && LegibleRun(s, shared, ops)
    ensures var fl := Run(s, shared, ops).free; (forall k | k in fl :: !IsNote(k)) && PyLegible(fl)
  {
    hide Joining, Run, RunEnabled, SoundRun, LegibleRun, Tidy;
    SoundRunEnabled(s, shared, ops);
    MembersOfRun(s, shared, ops);
    TidyUnfolds();
    PlainRunIsLegible(s, shared, ops);
    var fl := Run(s, shared, ops).free;
    forall i | 0 <= i < |fl|
      ensures Tidy(fl[i])
    {
      assert fl[i] in fl;
    }
  }

  lemma TidyUnfolds()
    ensures forall k {:trigger Tidy(k)} :: Tidy(k) ==> !LeadingPipe(k) && !TrailingPipe(k) && !IsNote(k)
  {
  }
}
