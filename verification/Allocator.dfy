/** The allocator's server state and its Lua scripts, statement by statement. */
module Allocator {
  import opened Sequences
  import opened PoolEncoding
  import opened Wrappers
  import opened FreeList
  import opened PoolSpec
  import opened ScriptMeaning
  import opened PoolCosts
  import opened Legibility

  /** The entry string of k is its entry joined. */
  ghost predicate EntryOk(pool: map<string, string>, m: Hash, k: string) {
    && k in pool && k in m
    && pool[k] == Join(m[k])
    && ValidKey(k) && Pointer(m[k].prev) && Pointer(m[k].next)
  }

  ghost predicate Spells(pool: map<string, string>, m: Hash)
    ensures Spells(pool, m) ==> pool.Keys == m.Keys && Named(m)
  {
    && pool.Keys == m.Keys
    && Named(m)
    && forall k {:trigger EntryOk(pool, m, k)} | k in m :: EntryOk(pool, m, k)
  }

  /** The strings spell out m, and reading them gives m back. */
  ghost predicate Encodes(pool: map<string, string>, m: Hash)
    ensures Encodes(pool, m) ==> Spells(pool, m)
  {
    Spells(pool, m) && Readable(m)
  }

  /** Every key is valid and every string splits into some entry. */
  ghost predicate Parses(pool: map<string, string>) {
    forall k | k in pool :: ValidKey(k) && LuaSplit(pool[k]).Some?
  }

  lemma KeyIsValid(pool: map<string, string>, m: Hash, k: string)
    requires Spells(pool, m) && k in m
    ensures ValidKey(k) && Pointer(m[k].prev) && Pointer(m[k].next) && pool[k] == Join(m[k])
  {
    assert EntryOk(pool, m, k);
  }

  lemma EntryReads(pool: map<string, string>, m: Hash, k: string)
    requires Spells(pool, m) && k in m
    ensures LuaSplit(pool[k]) == Some(LuaSeen(m[k]))
    ensures Encodes(pool, m) ==> LuaSeen(m[k]) == m[k] && !LeadingPipe(m[k].next)
  {
    assert EntryOk(pool, m, k);
    PointerHasNoSep(m[k].prev);
    PointerHasNoSep(m[k].next);
    LuaReads(m[k]);
    assert Encodes(pool, m) ==> NextReadable(m, k);
  }

  lemma SpelledParses(pool: map<string, string>, m: Hash)
    requires Spells(pool, m)
    ensures Parses(pool)
  {
    forall k | k in pool
      ensures ValidKey(k) && LuaSplit(pool[k]).Some?
    {
      KeyIsValid(pool, m, k);
      EntryReads(pool, m, k);
    }
  }

  lemma FieldReads(pool: map<string, string>, m: Hash, k: string)
    requires k in pool && (Spells(pool, m) || Parses(pool))
    ensures LuaSplit(pool[k]).Some?
    ensures Spells(pool, m) ==> k in m && LuaSplit(pool[k]).value == LuaSeen(m[k]) && ValidKey(k)
    ensures Encodes(pool, m) ==>
              && LuaSeen(m[k]) == m[k] && Pointer(m[k].prev) && Pointer(m[k].next) && !LeadingPipe(m[k].next)
  {
    if Spells(pool, m) {
      EntryReads(pool, m, k);
      KeyIsValid(pool, m, k);
    }
  }

  /** After the writes of push_to_tail on a list of one. */
  lemma LinkedToItself(pool: map<string, string>, m: Hash, k: string, expiry: int)
    requires Spells(pool, m) && k in m && m[k] == Entry(k, k, expiry)
    ensures Parses(pool) && ClaimsPrev(pool[k]) && pool[k] == Join(Entry(k, k, expiry)) && k != ""
  {
    SpelledParses(pool, m);
    KeyIsValid(pool, m, k);
    PrevSurvives(m[k]);
  }

  lemma WriteKeepsSpells(pool: map<string, string>, m: Hash, k: string, e: Entry)
    requires Spells(pool, m) && ValidKey(k) && Pointer(e.prev) && Pointer(e.next)
    ensures Spells(pool[k := Join(e)], m[k := e])
    ensures Encodes(pool, m) && !LeadingPipe(e.next) ==> Encodes(pool[k := Join(e)], m[k := e])
  {
    var pool', m' := pool[k := Join(e)], m[k := e];
    forall x | x in m'
      ensures EntryOk(pool', m', x)
    {
      assert x != k ==> EntryOk(pool, m, x);
    }
    forall x | x in m' && Encodes(pool, m) && !LeadingPipe(e.next)
      ensures NextReadable(m', x)
    {
      assert x != k ==> NextReadable(m, x);
    }
  }

  lemma DeleteKeepsSpells(pool: map<string, string>, m: Hash, k: string)
    requires Spells(pool, m)
    ensures Spells(pool - {k}, m - {k})
    ensures Encodes(pool, m) ==> Encodes(pool - {k}, m - {k})
  {
    forall x | x in m - {k}
      ensures EntryOk(pool - {k}, m - {k}, x) && (NextReadable(m, x) ==> NextReadable(m - {k}, x))
    {
      assert EntryOk(pool, m, x);
    }
  }

  /** The hash as the scripts read it, string by string. */
  function ReadBack(pool: map<string, string>): (m: Hash)
    ensures m.Keys == pool.Keys
  {
    map k | k in pool :: match LuaSplit(pool[k]) case Some(e) => e case None => Entry("", "", -1)
  }

  lemma SeenByScripts(pool: map<string, string>, m: Hash)
    requires Spells(pool, m)
    ensures ReadBack(pool) == LuaView(m)
    ensures (forall k | k in m :: LuaSplit(Join(m[k])) == Some(m[k])) <==> LuaView(m) == m
  {
    hide Spells, LuaSplit, LuaSeen, Join;
    forall k | k in m
      ensures LuaSplit(Join(m[k])) == Some(LuaSeen(m[k])) && ReadBack(pool)[k] == LuaSeen(m[k])
    {
      KeyIsValid(pool, m, k);
      EntryReads(pool, m, k);
    }
  }

  /** Spelled out by the strings, a list is a list for the scripts exactly when it is legible. */
  lemma ReadBackIsList(pool: map<string, string>, m: Hash, head: string, tail: string, fl: seq<string>)
    requires Spells(pool, m) && Linked(m, head, tail, fl)
    ensures ReadBack(pool) == m <==> LuaLegible(fl)
    ensures (forall k | k in m :: LuaSplit(Join(m[k])) == Some(m[k])) <==> LuaLegible(fl)
    ensures (exists gl :: Linked(ReadBack(pool), head, tail, gl)) <==> LuaLegible(fl)
  {
    hide Spells, LuaSplit, Join, LuaView, ReadBack, Linked, Named, LuaLegible;
    SeenByScripts(pool, m);
    LuaSeesList(m, head, tail, fl);
  }

  predicate ClaimsPrev(value: string) {
    var e := LuaSplit(value);
    e.Some? && e.value.prev != "" && e.value.prev != ALLOCATED
  }

  lemma ClaimSurvives(value: string, e: Entry)
    requires LuaSplit(value).Some?
    ensures ClaimsPrev(value) <==> LuaSplit(value).value.prev != "" && LuaSplit(value).value.prev != ALLOCATED
    ensures e.prev != "" && e.prev != ALLOCATED ==> ClaimsPrev(Join(e))
  {
    PrevSurvives(e);
  }

  lemma KeyParses(pool: map<string, string>, k: string)
    requires Parses(pool) && k in pool
    ensures ValidKey(k)
  {
  }

  lemma SeenAtTail(e: Entry)
    requires e.next == ""
    ensures LuaSeen(e) == e
  {
  }

  /** A head that claims a predecessor stands on no list. */
  lemma ClaimIsCorrupt(pool: map<string, string>, head: string, tail: string)
    requires head != "" && head in pool && ClaimsPrev(pool[head])
    ensures forall gl :: !Linked(ReadBack(pool), head, tail, gl)
  {
    forall gl: seq<string>
      ensures !Linked(ReadBack(pool), head, tail, gl)
    {
      assert head == At(gl, 0) ==> !NodeAt(ReadBack(pool), gl, 0);
    }
  }

  /** What a gc pass has still to do after its first key. */
  lemma GcBehind(s: State, scan: seq<string>)
    requires s.Wf() && Enabled(s, Op.Gc(scan)) && GcLegible(s, scan) && scan != []
    ensures var k, t, rest := scan[0], CheckHealth(s, scan[0]), scan[1..];
            && k in s.expiry && (k in s.free && s.Stale(k) ==> LuaLegible(s.free))
            && Enabled(t, Op.Gc(rest)) && GcLegible(t, rest) && GcAll(s, scan) == GcAll(t, rest)
            && |Pick(scan, IdleIn(s, scan))|
               == (if k in s.free || s.Stale(k) then 0 else 1) + |Pick(rest, IdleIn(t, rest))|
  {
    hide Distinct, LuaLegible, Pick, IdleIn, CheckHealth;
    DistinctAround(scan, 0);
    assert scan == [scan[0]] + scan[1..];
    GcPushesBehind(s, scan[0], scan[1..]);
  }

  lemma GcDone(s: State)
    requires s.Wf() && Distinct<string>([])
    ensures GcAll(s, []) == s && |Pick([], IdleIn(s, []))| == 0
  {
  }

  class RedisAllocator {
    const shared: bool
    var pool: map<string, string>
    var head: string
    var tail: string
    var locks: map<string, Deadline>
    var binds: map<string, Binding>
    var now: nat

    /** The parsed pool hash. */
    ghost var entries: Hash
    /** The expiry of every pool member. */
    ghost var expiries: map<string, int>
    /** The free list, head to tail. */
    ghost var fl: seq<string>
    ghost var tally: Tally

    /** The strings spell out the list, whether or not the scripts can read it back. */
    ghost predicate Spelled()
      reads `pool, `head, `tail, `entries, `expiries, `fl
      ensures Spelled() ==> pool.Keys == entries.Keys == expiries.Keys && Named(entries)
    {
      Spells(pool, entries) && Linked(entries, head, tail, fl) && ExpiriesOf(entries, expiries)
    }

    /** They can. */
    ghost predicate Valid()
      reads `pool, `head, `tail, `entries, `expiries, `fl
      ensures Valid() <==> Encodes(pool, entries) && Linked(entries, head, tail, fl) && ExpiriesOf(entries, expiries)
      ensures Valid() <==> Spelled() && LuaLegible(fl)
    {
      && Linked(entries, head, tail, fl)
      && (ReadableList(entries, head, tail, fl); Spelled() && LuaLegible(fl))
    }

    /** A script broke the list: its head claims a predecessor. */
    ghost predicate Broken()
      reads `pool, `head, `tail
    {
      head != "" && tail != "" && head in pool && tail in pool && Parses(pool) && ClaimsPrev(pool[head])
    }

    ghost function Abs(): (s: State)
      reads `pool, `head, `tail, `entries, `expiries, `fl, `locks, `binds, `now
      ensures Spelled() ==> s.Wf()
    {
      State(fl, expiries, locks, binds, now)
    }

    /** Nodes pushed that are neither on the list nor accounted for: no call changes that number. */
    ghost function Lost(): int
      reads `fl, `tally
    {
      tally.pushes - tally.skips - tally.takes - tally.unlinks - |fl|
    }

    constructor (shared: bool, now: nat)
      ensures Valid() && this.shared == shared && Abs() == State([], map[], map[], map[], now)
      ensures tally == Tally(0, 0, 0, 0) && Lost() == 0
    {
      this.shared, this.now := shared, now;
      pool, head, tail, locks, binds := map[], "", "", map[], map[];
      entries, expiries, fl, tally := map[], map[], [], Tally(0, 0, 0, 0);
    }

    // -------------------------------------------------------------- hash access

    function Field(k: string): (e: Entry)
      requires k in pool && (Spells(pool, entries) || Parses(pool))
      reads `pool, `entries
      ensures LuaSplit(pool[k]) == Some(e)
      ensures Spells(pool, entries) ==> e == LuaSeen(entries[k]) && ValidKey(k)
      ensures Encodes(pool, entries) ==>
                e == entries[k] && Pointer(e.prev) && Pointer(e.next) && !LeadingPipe(e.next)
    {
      FieldReads(pool, entries, k);
      LuaSplit(pool[k]).value
    }

    /** `meant` is an entry that joins to the same string. */
    method HSet(k: string, e: Entry, ghost meant: Entry := e)
      requires Join(e) == Join(meant)
      modifies `pool, `entries
      ensures pool == old(pool)[k := Join(e)] && entries == old(entries)[k := meant]
      ensures old(Spells(pool, entries)) && ValidKey(k) && Pointer(meant.prev) && Pointer(meant.next) ==>
                Spells(pool, entries)
      ensures old(Encodes(pool, entries)) && ValidKey(k) && Pointer(meant.prev) && ReadablePointer(meant.next) ==>
                Encodes(pool, entries)
      ensures old(Parses(pool)) && ValidKey(k) ==> Parses(pool)
    {
      ghost var pool0, m := pool, entries;
      pool := pool[k := Join(e)];
      entries := entries[k := meant];
      PrevSurvives(e);
      if Spells(pool0, m) && ValidKey(k) && Pointer(meant.prev) && Pointer(meant.next) {
        WriteKeepsSpells(pool0, m, k, meant);
      }
    }

    method HDel(k: string)
      requires Spells(pool, entries)
      modifies `pool, `entries
      ensures Spells(pool, entries) && entries == old(entries) - {k} && pool.Keys == entries.Keys
      ensures old(Encodes(pool, entries)) ==> Encodes(pool, entries)
    {
      ghost var pool0, m := pool, entries;
      pool := pool - {k};
      entries := entries - {k};
      DeleteKeepsSpells(pool0, m, k);
    }

    // -------------------------------------------------------------- helpers

    /** The writes of push_to_tail. `ok` is false when "tail should be the last item" stops it. */
    method LinkAtTail(k: string, expiry: int) returns (ok: bool)
      requires Spells(pool, entries) || Parses(pool)
      requires ValidKey(k) && (head == "" <==> tail == "") && (tail == "" || tail in pool)
      modifies `pool, `entries, `head, `tail
      ensures old(Spells(pool, entries)) && (old(tail) == "" || old(entries[tail]).next == "") ==>
                && ok && Spells(pool, entries) && entries == Appended(old(entries), old(tail), k, expiry)
                && head == (if old(tail) == "" then k else old(head)) && tail == k
      ensures old(Broken()) && k != old(head) ==> Broken()
    {
      hide Spells, Encodes, Parses, LuaSplit, LuaSeen, HasSep, Join, ClaimsPrev;
      var h, t := head, tail;
      if Spells(pool, entries) {
        SpelledParses(pool, entries);
        if t != "" {
          KeyIsValid(pool, entries, t);
        }
      }
      HSet(k, Entry(t, "", expiry));
      if t == "" || h == "" {
        head := k;
      } else {
        assert t in pool;  // "tail value should not be nil"
        var e := Field(t);
        ClaimSurvives(pool[t], Entry(e.prev, k, e.expiry));
        if Spells(pool, entries) && entries[t].next == "" {
          SeenAtTail(entries[t]);
        }
        if Parses(pool) {
          KeyParses(pool, t);
        }
        if e.next != "" {
          return false;
        }
        HSet(t, Entry(e.prev, k, e.expiry));
      }
      tail := k;
      return true;
    }

    /** push_to_tail on the strings: the entry test, then the writes. */
    method PushEntry(k: string, expiry: int) returns (ok: bool)
      requires Spells(pool, entries) || Parses(pool)
      requires ValidKey(k) && (head == "" <==> tail == "") && (tail == "" || tail in pool)
      modifies `pool, `entries, `head, `tail
      ensures old(Spells(pool, entries)) && old(k !in entries || LooksFree(LuaSeen(entries[k])))
              && (old(tail) == "" || old(entries[tail]).next == "") ==>
                && ok && Spells(pool, entries) && entries == Appended(old(entries), old(tail), k, expiry)
                && head == (if old(tail) == "" then k else old(head)) && tail == k
      ensures old(Spells(pool, entries) && k in entries && !LooksFree(LuaSeen(entries[k]))) ==>
                !ok && pool == old(pool) && entries == old(entries) && head == old(head) && tail == old(tail)
      ensures old(Broken()) ==> Broken()
    {
      hide Spells, Parses, LuaSplit, LuaSeen, HasSep, Join;
      if k in pool {
        var e := Field(k);
        if !(e.prev == ALLOCATED || e.prev == "") || !(e.next == "" || e.next == ALLOCATED) {
          return false;
        }
      }
      ok := LinkAtTail(k, expiry);
    }

    /** `ok` is false when one of the Lua asserts stops the script. */
    method PushToTail(k: string, expiry: int) returns (ok: bool)
      requires Spelled() || Broken()
      requires ValidKey(k)
      modifies `pool, `entries, `head, `tail, `fl, `expiries, `tally
      ensures old(Spelled()) && k !in old(fl) ==>
                && ok && Spelled() && Abs() == Push(old(Abs()), k, expiry)
                && tally == old(tally).(pushes := old(tally).pushes + 1)
      ensures old(Spelled()) && k in old(fl) && |old(fl)| > 1 ==> !ok && Spelled() && Abs() == old(Abs())
      ensures old(Spelled()) && old(fl) == [k] ==>
                ok && Broken() && head == tail == k && pool[k] == Join(Entry(k, k, expiry))
      ensures old(Broken()) ==> Broken()
    {
      hide Linked, ExpiriesOf, Spells, Parses, Named, Distinct, LuaSplit, LuaSeen, Join, LooksFree, HasSep,
           ClaimsPrev;
      ghost var m, gl, spelled := entries, fl, Spelled();
      if spelled {
        EndsOfList(m, head, tail, fl);
        FreeToPush(m, head, tail, fl, k);
        if k !in fl {
          AppendKeepsLinked(m, head, tail, fl, k, expiry);
          AppendedExpiries(m, expiries, tail, k, expiry);
          fl, expiries := fl + [k], expiries[k := expiry];
          tally := tally.(pushes := tally.pushes + 1);
        }
      }
      ok := PushEntry(k, expiry);
      if spelled && gl == [k] {
        LinkedToItself(pool, entries, k, expiry);
      }
    }

    /** Promote the successor of a removed head. */
    method AdvanceHeadAfterRemoval(headNext: string)
      requires Encodes(pool, entries)
      modifies `pool, `entries, `head, `tail
      ensures Encodes(pool, entries)
      ensures headNext == "" || headNext in old(entries) ==>
                && head == headNext && tail == (if headNext == "" then "" else old(tail))
                && entries == Stitched(old(entries), "", headNext)
      ensures headNext != "" && headNext !in old(entries) ==> head == tail == "" && entries == old(entries)
    {
      if headNext == "" {
        head, tail := "", "";
        return;
      }
      if headNext !in pool {
        head, tail := "", "";
        return;
      }
      var n := Field(headNext);
      HSet(headNext, Entry("", n.next, n.expiry));
      head := headNext;
    }

    /** The same for the successor of the head that is handed out. */
    method PromoteNext(next: string)
      requires Encodes(pool, entries) && (next == "" || next in entries)
      modifies `pool, `entries, `head, `tail
      ensures Encodes(pool, entries) && entries == Stitched(old(entries), "", next)
      ensures head == next && tail == if next == "" then "" else old(tail)
    {
      if next == "" {
        head, tail := "", "";
      } else {
        assert next in pool;  // "next value should not be nil"
        var n := Field(next);
        HSet(next, Entry("", n.next, n.expiry));
        head := next;
      }
    }

    /** The writes for a head that has expired. */
    method DeleteHeadEntry(h: string, next: string)
      requires Encodes(pool, entries) && (next == "" || next in entries) && next != h
      modifies `pool, `entries, `head, `tail
      ensures Encodes(pool, entries) && entries == Stitched(old(entries) - {h}, "", next)
      ensures head == next && tail == if next == "" then "" else old(tail)
    {
      hide Encodes, Spells, Stitched, LuaSplit, Join;
      HDel(h);
      AdvanceHeadAfterRemoval(next);
    }

    /** The writes for a head that is locked. */
    method MarkHeadEntry(h: string, e: Entry)
      requires Encodes(pool, entries) && h in entries && (e.next == "" || e.next in entries)
      modifies `pool, `entries, `head, `tail
      ensures Encodes(pool, entries) && entries == Stitched(old(entries)[h := Marker(e.expiry)], "", e.next)
      ensures head == e.next && tail == if e.next == "" then "" else old(tail)
    {
      hide Encodes, Spells, Stitched, LuaSplit, Join;
      KeyIsValid(pool, entries, h);
      HSet(h, Marker(e.expiry));
      AdvanceHeadAfterRemoval(e.next);
    }

    /** The writes for a head that is handed out. */
    method TakeHeadEntry(h: string, e: Entry)
      requires Encodes(pool, entries) && h in entries && (e.next == "" || e.next in entries)
      modifies `pool, `entries, `head, `tail
      ensures Encodes(pool, entries) && entries == Stitched(old(entries), "", e.next)[h := Marker(e.expiry)]
      ensures head == e.next && tail == if e.next == "" then "" else old(tail)
    {
      hide Encodes, Spells, Stitched, LuaSplit, Join;
      KeyIsValid(pool, entries, h);
      PromoteNext(e.next);
      HSet(h, Marker(e.expiry));
    }

    /** The expired head leaves the pool. */
    method DeleteHead(h: string, e: Entry)
      requires Valid() && fl != [] && h == head && h in entries && e == entries[h]
      modifies `pool, `entries, `head, `tail, `fl, `expiries
      ensures Valid() && Abs() == old(Abs()).(free := old(fl)[1..], expiry := old(Abs()).expiry - {h})
    {
      hide Stitched, Linked, ExpiriesOf, Valid, Encodes, Spells, Parses, Named, Distinct, LuaLegible, LuaSplit, Join,
           ValidKey;
      HeadDeleted(entries, expiries, head, tail, fl);
      fl, expiries := fl[1..], expiries - {h};
      DeleteHeadEntry(h, e.next);
    }

    /** The locked head stays in the pool as an allocated member. */
    method MarkHead(h: string, e: Entry)
      requires Valid() && fl != [] && h == head && h in entries && e == entries[h]
      modifies `pool, `entries, `head, `tail, `fl
      ensures Valid() && Abs() == old(Abs()).(free := old(fl)[1..])
    {
      hide Stitched, Linked, ExpiriesOf, Valid, Encodes, Spells, Parses, Named, Distinct, LuaLegible, LuaSplit, Join,
           ValidKey;
      HeadMarked(entries, expiries, head, tail, fl);
      fl := fl[1..];
      MarkHeadEntry(h, e);
    }

    /** The usable head becomes an allocated member. */
    method TakeHead(h: string, e: Entry)
      requires Valid() && fl != [] && h == head && h in entries && e == entries[h]
      modifies `pool, `entries, `head, `tail, `fl
      ensures Valid() && Abs() == old(Abs()).(free := old(fl)[1..])
      ensures h in expiries && expiries[h] == e.expiry
    {
      hide Stitched, Linked, ExpiriesOf, Valid, Encodes, Spells, Parses, Named, Distinct, LuaLegible, LuaSplit, Join,
           ValidKey;
      HeadTaken(entries, expiries, head, tail, fl);
      ExpiryOfEntry(entries, expiries, h);
      fl := fl[1..];
      TakeHeadEntry(h, e);
    }

    /** Take the first usable key off the list, discarding the stale ones in front of it.
        The recursion is bounded by the length of the list. */
    method PopFromHead() returns (item: Option<string>, expiry: int)
      requires Valid()
      modifies `pool, `entries, `head, `tail, `fl, `expiries, `tally
      ensures Valid() && (Abs(), item) == Pop(old(Abs()))
      ensures item.Some? ==> item.value in expiries && expiry == expiries[item.value] && ValidKey(item.value)
      ensures tally == old(tally).(skips := old(tally).skips + StaleHeads(old(Abs()), old(fl)),
                                   takes := old(tally).takes + if item.Some? then 1 else 0)
      ensures Lost() == old(Lost())
      decreases |fl|
    {
      hide Linked, ExpiriesOf, Valid, Encodes, Spells, Parses, Named, Distinct, LuaLegible, LuaSplit, Join, ValidKey,
           Pop, StaleHeads;
      ghost var s := Abs();
      PopSkips(s);
      EndsOfList(entries, head, tail, fl);
      var h := head;
      if h == "" {
        return None, -1;
      }
      assert h in pool;  // "head value should not be nil"
      var e := Field(h);
      ExpiryOfEntry(entries, expiries, h);
      if ExpiryInvalid(e.expiry, now) {
        tally := tally.(skips := tally.skips + 1);
        DeleteHead(h, e);
        assert Abs() == WithoutHead(s);
        item, expiry := PopFromHead();
      } else if h in locks && Live(locks[h], now) {
        tally := tally.(skips := tally.skips + 1);
        MarkHead(h, e);
        assert Abs() == WithoutHead(s);
        item, expiry := PopFromHead();
      } else {
        tally := tally.(takes := tally.takes + 1);
        TakeHead(h, e);
        item, expiry := Some(h), e.expiry;
      }
    }

    /** Make the neighbours of a node point at each other, or at an end of the list. */
    method Stitch(prev: string, next: string)
      requires Encodes(pool, entries) && Pointer(prev) && Pointer(next) && !LeadingPipe(next)
      requires (prev == "" || prev in entries) && (next == "" || next in entries)
      modifies `pool, `entries, `head, `tail
      ensures Encodes(pool, entries) && entries == Stitched(old(entries), prev, next)
      ensures head == if prev == "" then next else old(head)
      ensures tail == if next == "" then prev else old(tail)
    {
      if prev != "" {
        assert prev in pool;  // "prev value should not be nil"
        var p := Field(prev);
        HSet(prev, Entry(p.prev, next, p.expiry));
      } else {
        head := next;
      }
      if next != "" {
        assert next in pool;  // "next value should not be nil"
        var n := Field(next);
        HSet(next, Entry(prev, n.next, n.expiry));
      } else {
        tail := prev;
      }
    }

    /** All the writes of set_item_allocated: delete an expired entry, stitch, write the marks back. */
    method Unchain(k: string, e: Entry)
      requires Encodes(pool, entries) && k in entries && e == entries[k] && ValidKey(k)
      requires Pointer(e.prev) && (e.prev == "" || e.prev in entries) && e.prev != k
      requires Pointer(e.next) && (e.next == "" || e.next in entries) && e.next != k && !LeadingPipe(e.next)
      modifies `pool, `entries, `head, `tail
      ensures Encodes(pool, entries) && entries == Unlinked(old(entries), k)
      ensures head == if e.prev == "" then e.next else old(head)
      ensures tail == if e.next == "" then e.prev else old(tail)
    {
      StitchAroundDeleted(entries, k, Marker(e.expiry), e.prev, e.next);
      if ExpiryInvalid(e.expiry, now) {
        HDel(k);
      }
      Stitch(e.prev, e.next);
      HSet(k, Marker(e.expiry));
    }

    /** set_item_allocated on a listed node. */
    method CutOut(k: string, e: Entry)
      requires Valid() && k in fl && k in entries && e == entries[k]
      modifies `pool, `entries, `head, `tail, `fl
      ensures Valid() && Abs() == Unlink(old(Abs()), k)
    {
      hide Linked, ExpiriesOf, Valid, Encodes, Spells, Parses, Named, Distinct, LuaLegible, LuaSplit, Join, ValidKey;
      NodeIsUnlinkable(entries, head, tail, fl, k);
      UnlinkedExpiries(entries, expiries, k);
      EntryReads(pool, entries, k);
      KeyIsValid(pool, entries, k);
      assert e.next != ALLOCATED;  // "next item should not be allocated"
      fl := Drop(fl, {k});
      Unchain(k, e);
    }

    /** Take a node out of the list, wherever it stands. */
    method SetItemAllocated(k: string)
      requires Spelled() && k in pool && (k in fl ==> LuaLegible(fl))
      modifies `pool, `entries, `head, `tail, `fl, `tally
      ensures Spelled() && Abs() == Unlink(old(Abs()), k)
      ensures k !in fl && (old(Valid()) ==> Valid())
      ensures tally == old(tally).(unlinks := tally.unlinks) && Lost() == old(Lost())
    {
      hide Linked, ExpiriesOf, Valid, Encodes, Spells, Parses, Named, Distinct, LuaLegible, LuaSplit, LuaSeen, Join,
           ValidKey;
      var e := Field(k);
      SeenOnList(entries, head, tail, fl, k);
      if e.prev != ALLOCATED {
        assert Valid();
        assert Abs().Wf();
        DropDistinct(fl, {k});
        tally := tally.(unlinks := tally.unlinks + (|fl| - |Drop(fl, {k})|));
        CutOut(k, e);
      } else {
        assert e.next == ALLOCATED;  // "next item should also be allocated"
        DropNothing(fl, {k});
      }
    }

    /** Drop an allocated member from the pool hash. */
    method ForgetAllocated(k: string)
      requires Spelled() && k !in fl
      modifies `pool, `entries, `expiries
      ensures Spelled() && Abs() == old(Abs()).(expiry := old(Abs()).expiry - {k})
      ensures old(Valid()) ==> Valid()
    {
      ForgetMarker(entries, head, tail, fl, k);
      HDel(k);
      expiries := expiries - {k};
    }

    method CheckItemHealth(k: string)
      requires Spelled() && k in pool && (k in fl && Abs().Stale(k) ==> LuaLegible(fl))
      modifies `pool, `entries, `head, `tail, `fl, `expiries, `tally
      ensures Spelled() && Abs() == CheckHealth(old(Abs()), k)
      ensures tally.pushes == old(tally).pushes + if k in old(fl) || old(Abs()).Stale(k) then 0 else 1
      ensures tally == old(tally).(pushes := tally.pushes, unlinks := tally.unlinks) && Lost() == old(Lost())
    {
      hide Linked, ExpiriesOf, Valid, Encodes, Spells, Parses, Named, Distinct, LuaLegible, LuaSplit, LuaSeen, Join,
           ValidKey;
      KeyIsValid(pool, entries, k);
      var e := Field(k);
      SeenOnList(entries, head, tail, fl, k);
      ExpiryOfEntry(entries, expiries, k);
      if ExpiryInvalid(e.expiry, now) {
        SetItemAllocated(k);
        ForgetAllocated(k);
        return;
      }
      var locked := k in locks && Live(locks[k], now);
      if e.prev == ALLOCATED {
        if !locked {
          var ok := PushToTail(k, e.expiry);
        }
      } else if locked {
        SetItemAllocated(k);
      }
    }

    /** Head to tail, bounded by the pool size even when the list is broken. */
    method GetFreeList() returns (items: seq<string>)
      ensures |items| <= |pool|
      ensures Valid() ==> items == fl
    {
      hide Linked, ExpiriesOf, Valid, Encodes, Spells, Parses, Named, Distinct, LuaLegible, LuaSplit, Join, ValidKey;
      items := [];
      if Valid() {
        EndsOfList(entries, head, tail, fl);
        ListFitsInPool(entries, head, tail, fl);
      }
      if head == "" {
        return;
      }
      var current := head;
      for i := 0 to |pool|
        invariant |items| == i
        invariant Valid() ==> i < |fl| <= |pool| && items == fl[..i] && current == fl[i]
      {
        if Valid() {
          NeighboursInHash(entries, head, tail, fl, i);
          EntryReads(pool, entries, fl[i]);
        }
        if current == "" {
          break;
        }
        items := items + [current];
        if current !in pool {
          break;
        }
        var e := LuaSplit(pool[current]);
        if e.None? || e.value.next == "" || e.value.next == ALLOCATED {
          break;
        }
        current := e.value.next;
      }
    }

    // -------------------------------------------------------------- scripts

    method ClearScript()
      modifies `pool, `entries, `head, `tail, `fl, `expiries, `tally
      ensures Valid() && Abs() == Clear(old(Abs()))
      ensures tally == old(tally).(unlinks := old(tally).unlinks + |old(fl)|)
    {
      pool := map[];
      head, tail := "", "";
      tally := tally.(unlinks := tally.unlinks + |fl|);
      entries, expiries, fl := map[], map[], [];
    }

    method ExtendScript(keys: seq<string>, timeout: int)
      requires Spelled() && forall k | k in keys :: ValidKey(k)
      modifies `pool, `entries, `head, `tail, `fl, `expiries, `tally, `locks
      ensures Spelled() && Abs() == ExtendAll(old(Abs()), keys, TimeoutToExpiry(now, timeout))
      ensures tally == old(tally).(pushes := tally.pushes) && Lost() == old(Lost())
    {
      hide Linked, ExpiriesOf, Valid, Encodes, Spells, Parses, Named, Distinct, LuaLegible, LuaSplit, Join, ValidKey;
      var expiry := TimeoutToExpiry(now, timeout);
      for i := 0 to |keys|
        invariant Spelled() && ExtendAll(Abs(), keys[i..], expiry) == ExtendAll(old(Abs()), keys, expiry)
        invariant tally == old(tally).(pushes := tally.pushes) && Lost() == old(Lost())
      {
        var k := keys[i];
        assert keys[i..][1..] == keys[i + 1..];
        if k in pool {
          RefreshExpiry(k, expiry);
        } else {
          locks := locks - {k};
          var ok := PushToTail(k, expiry);
        }
      }
    }

    /** A misread entry is misread and written back the same. */
    method RefreshExpiry(k: string, expiry: int)
      requires Spelled() && k in pool
      modifies `pool, `entries, `expiries
      ensures Spelled() && Abs() == old(Abs()).(expiry := old(Abs()).expiry[k := expiry])
    {
      hide Linked, ExpiriesOf, Valid, Encodes, Spells, Parses, Named, Distinct, LuaLegible, LuaSplit, Join, ValidKey,
           LuaSeen;
      ExpiryIsNotStructure(entries, expiries, head, tail, fl, k, expiry);
      KeyIsValid(pool, entries, k);
      RewriteHeals(entries[k], expiry);
      var e := Field(k);
      HSet(k, Entry(e.prev, e.next, expiry), entries[k].(expiry := expiry));
      expiries := expiries[k := expiry];
    }

    method ShrinkScript(keys: seq<string>)
      requires Spelled() && (LuaLegible(fl) || forall k | k in keys :: k !in fl)
      modifies `pool, `entries, `head, `tail, `fl, `expiries, `tally
      ensures Spelled() && Abs() == ShrinkAll(old(Abs()), keys)
      ensures tally == old(tally).(unlinks := tally.unlinks) && Lost() == old(Lost())
    {
      hide Linked, ExpiriesOf, Valid, Encodes, Spells, Parses, Named, Distinct, LuaLegible, LuaSplit, Join, ValidKey;
      for i := 0 to |keys|
        invariant Spelled() && (LuaLegible(fl) || forall k | k in keys[i..] :: k !in fl)
        invariant ShrinkAll(Abs(), keys[i..]) == ShrinkAll(old(Abs()), keys)
        invariant tally == old(tally).(unlinks := tally.unlinks) && Lost() == old(Lost())
      {
        assert keys[i..][1..] == keys[i + 1..];
        if keys[i] in pool {
          DropMember(keys[i]);
        }
      }
    }

    /** First pass of assign: members outside the set leave, members inside it are ticked off. */
    method EvictOthers(hkeys: seq<string>, wanted: set<string>) returns (assignSet: set<string>)
      requires Spelled() && Enumerates(hkeys, Abs().expiry.Keys)
      requires LuaLegible(fl) || forall k | k in fl :: k in wanted
      modifies `pool, `entries, `head, `tail, `fl, `expiries, `tally
      ensures Spelled() && Abs() == Evict(old(Abs()), hkeys, wanted)
      ensures assignSet == wanted - Elements(hkeys)
      ensures tally == old(tally).(unlinks := tally.unlinks) && Lost() == old(Lost())
    {
      hide Linked, ExpiriesOf, Valid, Encodes, Spells, Parses, Named, Distinct, LuaLegible, LuaSplit, Join, ValidKey,
           Forget;
      ghost var legible, left := LuaLegible(fl), hkeys;
      assignSet := wanted;
      assert forall j | 0 <= j < |hkeys| :: hkeys[j] in Elements(hkeys);
      for i := 0 to |hkeys|
        invariant Spelled() && (if legible then LuaLegible(fl) else fl == old(fl))
        invariant left == hkeys[i..] && Evict(Abs(), left, wanted) == Evict(old(Abs()), hkeys, wanted)
        invariant assignSet == wanted - Elements(hkeys[..i])
        invariant forall j | i <= j < |hkeys| :: hkeys[j] in pool
        invariant tally == old(tally).(unlinks := tally.unlinks) && Lost() == old(Lost())
      {
        var k := hkeys[i];
        left := left[1..];
        assert hkeys[..i + 1] == hkeys[..i] + [k];
        DistinctAround(hkeys, i);
        if k !in assignSet {
          DropMember(k);
        } else {
          assignSet := assignSet - {k};
        }
      }
      assert hkeys[..|hkeys|] == hkeys;
    }

    method DropMember(k: string)
      requires Spelled() && k in pool && (k in fl ==> LuaLegible(fl))
      modifies `pool, `entries, `head, `tail, `fl, `expiries, `tally
      ensures Spelled() && Abs() == Forget(old(Abs()), k)
      ensures (old(Valid()) ==> Valid()) && (k !in old(fl) ==> fl == old(fl))
      ensures pool.Keys == old(pool.Keys) - {k}
      ensures tally == old(tally).(unlinks := tally.unlinks) && Lost() == old(Lost())
    {
      hide Linked, ExpiriesOf, Valid, Encodes, Spells, Parses, Named, Distinct, LuaLegible, LuaSplit, Join, ValidKey;
      if k !in fl {
        DropNothing(fl, {k});
      }
      SetItemAllocated(k);
      ForgetAllocated(k);
    }

    /** Second pass of assign: the names left in the set join, in the order pairs() walks it. */
    method AddRemaining(order: seq<string>, expiry: int)
      requires Spelled() && Distinct(order)
      requires forall k | k in order :: ValidKey(k) && k !in Abs().expiry
      modifies `pool, `entries, `head, `tail, `fl, `expiries, `tally, `locks
      ensures Spelled() && Abs() == AddAll(old(Abs()), order, expiry)
      ensures tally == old(tally).(pushes := old(tally).pushes + |order|) && Lost() == old(Lost())
    {
      hide Linked, ExpiriesOf, Valid, Encodes, Spells, Parses, Named, Distinct, LuaLegible, LuaSplit, Join, ValidKey;
      for i := 0 to |order|
        invariant Spelled()
        invariant forall k | k in order[i..] :: k !in Abs().expiry
        invariant Distinct(order[i..])
        invariant AddAll(Abs(), order[i..], expiry) == AddAll(old(Abs()), order, expiry)
        invariant tally == old(tally).(pushes := old(tally).pushes + i) && Lost() == old(Lost())
      {
        var k := order[i];
        assert order[i..][1..] == order[i + 1..];
        DistinctAround(order, i);
        locks := locks - {k};
        var ok := PushToTail(k, expiry);
      }
    }

    /** `hkeys` is the order HKEYS returns, `order` the order pairs() walks what is left of the set. */
    method AssignScript(keys: seq<string>, timeout: int, hkeys: seq<string>, order: seq<string>)
      requires Spelled() && forall k | k in keys :: ValidKey(k)
      requires LuaLegible(fl) || forall k | k in fl :: k in keys
      requires Enumerates(hkeys, Abs().expiry.Keys) && Enumerates(order, Elements(keys) - Abs().expiry.Keys)
      modifies `pool, `entries, `head, `tail, `fl, `expiries, `tally, `locks
      ensures Spelled() && Abs() == AssignAll(old(Abs()), Elements(keys), hkeys, order, TimeoutToExpiry(now, timeout))
      ensures tally == old(tally).(pushes := old(tally).pushes + |order|, unlinks := tally.unlinks)
      ensures Lost() == old(Lost())
    {
      hide Linked, ExpiriesOf, Valid, Encodes, Spells, Parses, Named, Distinct, LuaLegible, LuaSplit, Join, ValidKey;
      var expiry := TimeoutToExpiry(now, timeout);
      var wanted: set<string> := {};
      for i := 0 to |keys|
        invariant wanted == Elements(keys[..i])
      {
        wanted := wanted + {keys[i]};
        assert keys[..i + 1] == keys[..i] + [keys[i]];
      }
      assert keys[..|keys|] == keys;
      var assignSet := EvictOthers(hkeys, wanted);
      assert assignSet == Elements(order);
      assert forall k | k in order :: k in Elements(order);
      AddRemaining(order, expiry);
    }

    method RefreshCache(name: string, k: string, cacheTimeout: int)
      modifies `binds
      ensures Abs() == Bind(old(Abs()), name, k, cacheTimeout)
    {
      if name != "" {
        if cacheTimeout > 0 {
          binds := binds[name := Binding(k, After(now, cacheTimeout))];
        } else {
          binds := binds[name := Binding(k, Forever)];
        }
      }
    }

    /** The named caller gets the key it is bound to: first the list, then the lock. */
    method MallocBoundKey(cached: string, timeout: int, name: string, cacheTimeout: int) returns (r: Reply)
      requires Spelled() && cached in pool && (!shared && cached in fl ==> LuaLegible(fl))
      modifies `pool, `entries, `head, `tail, `fl, `expiries, `tally, `locks, `binds
      ensures Spelled() && (Abs(), r) == MallocBound(old(Abs()), shared, timeout, name, cacheTimeout, cached)
      ensures old(Valid()) ==> Valid()
      ensures tally == old(tally).(unlinks := tally.unlinks) && Lost() == old(Lost())
    {
      hide Linked, ExpiriesOf, Valid, Encodes, Spells, Parses, Named, Distinct, LuaLegible, LuaSplit, Join, ValidKey;
      RefreshCache(name, cached, cacheTimeout);
      if !shared {
        SetItemAllocated(cached);
        if timeout <= 0 {
          return ScriptError;  // the server refuses SET .. EX with such a timeout
        }
        locks := locks[cached := After(now, timeout)];
      }
      return Granted(cached);
    }

    method MallocFromHead(timeout: int, name: string, cacheTimeout: int) returns (r: Reply)
      requires Valid()
      modifies `pool, `entries, `head, `tail, `fl, `expiries, `tally, `locks, `binds
      ensures Spelled() && (Abs(), r) == MallocPop(old(Abs()), shared, timeout, name, cacheTimeout)
      ensures !shared ==> Valid()
      ensures tally == old(tally).(skips := old(tally).skips + StaleHeads(old(Abs()), old(fl)),
                                   takes := old(tally).takes + if r == Empty then 0 else 1,
                                   pushes := old(tally).pushes + if r != Empty && shared then 1 else 0)
      ensures Lost() == old(Lost())
    {
      hide Linked, ExpiriesOf, Valid, Encodes, Spells, Parses, Named, Distinct, LuaLegible, LuaSplit, Join, ValidKey,
           Pop, StaleHeads;
      var item, expiry := PopFromHead();
      if item.None? {
        return Empty;
      }
      var k := item.value;
      if !shared {
        if timeout > 0 {
          locks := locks[k := After(now, timeout)];
        } else {
          locks := locks[k := Forever];
        }
      } else {
        var ok := PushToTail(k, expiry);
      }
      RefreshCache(name, k, cacheTimeout);
      r := Granted(k);
    }

    /** Only in shared mode, where the key goes back behind the others, can the list become illegible. */
    method MallocScript(timeout: int, name: string, cacheTimeout: int) returns (r: Reply)
      requires Spelled() && CallLegible(Abs(), shared, Op.Malloc(timeout, name, cacheTimeout))
      modifies `pool, `entries, `head, `tail, `fl, `expiries, `tally, `locks, `binds
      ensures Spelled() && (Abs(), r) == MallocKey(old(Abs()), shared, timeout, name, cacheTimeout)
      ensures old(Valid()) && !shared ==> Valid()
      ensures Tallied(old(tally), tally, old(Abs()), Op.Malloc(timeout, name, cacheTimeout))
      ensures Lost() == old(Lost())
    {
      hide Linked, ExpiriesOf, Valid, Encodes, Spells, Parses, Named, Distinct, LuaLegible, LuaSplit, Join, ValidKey,
           Pop, StaleHeads, MallocPop, MallocBound;
      ghost var s := Abs();
      if name != "" && name in binds && Live(binds[name].deadline, now) {
        var cached := binds[name].key;
        if cached !in pool || (cached in locks && Live(locks[cached], now)) {
          binds := binds - {name};
        } else {
          r := MallocBoundKey(cached, timeout, name, cacheTimeout);
          return;
        }
      }
      StaleHeadsAgree(s, Abs(), fl);
      MallocCharged(s, shared, timeout, name, cacheTimeout);
      r := MallocFromHead(timeout, name, cacheTimeout);
    }

    /** What every call but the unlinking of nodes is charged with. */
    ghost predicate Tallied(t: Tally, u: Tally, s: State, op: Op)
      requires s.Wf()
    {
      u == Charged(t, s, shared, op).(unlinks := u.unlinks)
    }

    method FreeOneKey(k: string, expiry: int) returns (ok: bool)
      requires Spelled() || Broken()
      modifies `pool, `entries, `head, `tail, `fl, `expiries, `tally, `locks
      ensures old(Broken()) ==> Broken()
      ensures old(Spelled()) && !(old(Abs()).Locked(k) && k in old(fl)) ==>
                && ok && Spelled() && Abs() == FreeOne(old(Abs()), k, expiry)
                && tally == old(tally).(pushes := tally.pushes) && Lost() == old(Lost())
      ensures old(Spelled()) && old(Abs()).Locked(k) && old(fl) == [k] ==> ok && Broken()
      ensures old(Spelled()) && old(Abs()).Locked(k) && k in old(fl) && |old(fl)| > 1 ==> !ok && Spelled()
    {
      hide Linked, ExpiriesOf, Valid, Encodes, Spells, Parses, Named, Distinct, LuaLegible, LuaSplit, Join, ValidKey;
      var deleted := k in locks && Live(locks[k], now);
      locks := locks - {k};
      ok := true;
      if deleted && k in pool {
        if Spelled() {
          KeyIsValid(pool, entries, k);
        } else {
          KeyParses(pool, k);
        }
        ok := PushToTail(k, expiry);
      }
    }

    /** Exactly when no key of the batch is both locked and free, the script runs to its end and leaves the strings of
        a list behind. Otherwise it stops at an assert, or no list fits what it leaves. */
    method FreeScript(keys: seq<string>, timeout: int) returns (ok: bool)
      requires Spelled()
      modifies `pool, `entries, `head, `tail, `fl, `expiries, `tally, `locks
      ensures Freeable(old(Abs()), keys) ==>
                && ok && Spelled() && Abs() == FreeAll(old(Abs()), keys, TimeoutToExpiry(now, timeout))
                && tally == old(tally).(pushes := tally.pushes) && Lost() == old(Lost())
      ensures !Freeable(old(Abs()), keys) ==> !ok || forall gl :: !Linked(ReadBack(pool), head, tail, gl)
      ensures Spelled() || Broken()
    {
      hide Linked, ExpiriesOf, Valid, Encodes, Spells, Parses, Named, Distinct, LuaLegible, LuaSplit, Join, ValidKey,
           ClaimsPrev;
      var expiry := TimeoutToExpiry(now, timeout);
      ghost var s, broken := Abs(), false;
      for i := 0 to |keys|
        invariant broken ==> Broken() && !Freeable(s, keys)
        invariant !broken ==> Spelled() && (Freeable(Abs(), keys[i..]) <==> Freeable(s, keys))
        invariant !broken ==> tally == old(tally).(pushes := tally.pushes) && Lost() == old(Lost())
        invariant !broken && Freeable(s, keys) ==> FreeAll(Abs(), keys[i..], expiry) == FreeAll(s, keys, expiry)
      {
        ghost var s', k := Abs(), keys[i];
        FreeableSplit(s', keys, i);
        if !broken && !(s'.Locked(k) && k in s'.free) {
          FreeOneKeepsFreeable(s', k, keys[i + 1..], expiry);
        }
        ok := FreeOneKey(keys[i], expiry);
        if !ok {
          return;
        }
        broken := broken || (s'.Locked(k) && k in s'.free);
      }
      if broken {
        ClaimIsCorrupt(pool, head, tail);
      }
      return true;
    }

    /** `scan` is what one HSCAN call returns: members, each once. */
    method GcScript(scan: seq<string>)
      requires Spelled() && Enabled(Abs(), Op.Gc(scan)) && GcLegible(Abs(), scan)
      modifies `pool, `entries, `head, `tail, `fl, `expiries, `tally
      ensures Spelled() && Abs() == GcAll(old(Abs()), scan)
      ensures Tallied(old(tally), tally, old(Abs()), Op.Gc(scan))
      ensures Lost() == old(Lost())
    {
      hide Linked, ExpiriesOf, Valid, Encodes, Spells, Parses, Named, Distinct, LuaLegible, LuaSplit, Join, ValidKey,
           Pick, IdleIn, CheckHealth, GcAll, GcLegible;
      ghost var s0, t0, left := Abs(), tally, scan;
      for i := 0 to |scan|
        invariant left == scan[i..] && Spelled() && Enabled(Abs(), Op.Gc(left)) && GcLegible(Abs(), left)
        invariant GcAll(Abs(), left) == GcAll(s0, scan)
        invariant tally == t0.(pushes := tally.pushes, unlinks := tally.unlinks) && Lost() == old(Lost())
        invariant tally.pushes + |Pick(left, IdleIn(Abs(), left))| == t0.pushes + |Pick(scan, IdleIn(s0, scan))|
      {
        GcBehind(Abs(), left);
        left := left[1..];
        CheckItemHealth(scan[i]);
      }
      GcDone(Abs());
    }

    // -------------------------------------------------------------- calls

    method ValidateKeys(keys: seq<string>) returns (ok: bool)
      ensures ok <==> forall k | k in keys :: ValidKey(k)
      ensures ok <==> forall k | k in keys ::
                        && k != "" && k != "#ALLOCATED"
                        && (forall i, j | 0 <= i && j == i + 1 < |k| :: !(k[i] == '|' && k[j] == '|'))
                        && (forall c | c in k :: c as int != 0)
    {
      hide ValidKey;
      forall k | k in keys {
        ValidKeyMeans(k);
      }
      for i := 0 to |keys|
        invariant forall k | k in keys[..i] :: ValidKey(k)
      {
        if !ValidKey(keys[i]) {
          assert keys[i] in keys;
          return false;
        }
        assert keys[..i + 1] == keys[..i] + [keys[i]];
      }
      assert keys[..|keys|] == keys;
      return true;
    }

    /** An invalid key rejects the whole batch. */
    method Extend(keys: seq<string>, timeout: int) returns (r: Reply)
      requires Spelled()
      modifies `pool, `entries, `head, `tail, `fl, `expiries, `tally, `locks
      ensures Spelled() && (Abs(), r) == Step(old(Abs()), shared, Op.Extend(keys, timeout))
      ensures tally == old(tally).(pushes := tally.pushes) && Lost() == old(Lost())
    {
      hide Linked, ExpiriesOf, Valid, Encodes, Spells, Parses, Named, Distinct, LuaLegible, LuaSplit, Join, ValidKey;
      if |keys| > 0 {
        var ok := ValidateKeys(keys);
        if !ok {
          return Rejected;
        }
        ExtendScript(keys, timeout);
      }
      return Done;
    }

    /** An empty batch clears the pool; an invalid key rejects the call and leaves the pool alone. */
    method Assign(keys: seq<string>, timeout: int, hkeys: seq<string>, order: seq<string>) returns (r: Reply)
      requires Spelled() && Enabled(Abs(), Op.Assign(keys, timeout, hkeys, order))
      requires CallLegible(Abs(), shared, Op.Assign(keys, timeout, hkeys, order))
      modifies `pool, `entries, `head, `tail, `fl, `expiries, `tally, `locks
      ensures Spelled() && (Abs(), r) == Step(old(Abs()), shared, Op.Assign(keys, timeout, hkeys, order))
      ensures Tallied(old(tally), tally, old(Abs()), Op.Assign(keys, timeout, hkeys, order))
      ensures Lost() == old(Lost())
    {
      hide Linked, ExpiriesOf, Valid, Encodes, Spells, Parses, Named, Distinct, LuaLegible, LuaSplit, Join, ValidKey;
      if |keys| > 0 {
        var ok := ValidateKeys(keys);
        if !ok {
          return Rejected;
        }
        AssignScript(keys, timeout, hkeys, order);
      } else {
        ClearScript();
      }
      return Done;
    }

    /** RedisLock.update on a key of this allocator: SET key_str(key) "1" EX timeout, or with no EX at all. */
    method UpdateLock(k: string, timeout: Option<int>) returns (r: Reply)
      requires Spelled()
      modifies `locks
      ensures Spelled() && (Abs(), r) == Step(old(Abs()), shared, Op.UpdateLock(k, timeout))
    {
      hide Linked, ExpiriesOf, Valid, Encodes, Spells, Parses, Named, Distinct, LuaLegible, LuaSplit, Join, ValidKey;
      if timeout.None? {
        locks := locks[k := Forever];
        return Done;
      }
      if timeout.value <= 0 {
        return ScriptError;  // the server refuses SET .. EX with such a timeout
      }
      locks := locks[k := After(now, timeout.value)];
      return Done;
    }

    /** The scripts behind the calls. */
    method Serve(op: Op) returns (r: Reply)
      requires Spelled() && Enabled(Abs(), op) && CallLegible(Abs(), shared, op)
      modifies this
      ensures Spelled() && (Abs(), r) == Step(old(Abs()), shared, op)
      ensures tally == Charged(old(tally), old(Abs()), shared, op)
    {
      hide Linked, ExpiriesOf, Valid, Encodes, Spells, Parses, Named, Distinct, LuaLegible, LuaSplit, Join, ValidKey,
           Pushes, Skips, Takes, Unlinks;
      r := Done;
      StepBalance(Abs(), shared, op);
      ghost var s, t := Abs(), tally;
      Uncharged(s, shared, op);
      match op {
        case Malloc(timeout, name, cacheTimeout) =>
          r := MallocScript(timeout, name, cacheTimeout);
        case FreeKeys(keys, timeout) =>
          var ok := FreeScript(keys, timeout);
          assert ok;
        case Extend(keys, timeout) =>
          r := Extend(keys, timeout);
        case Shrink(keys) =>
          ShrinkScript(keys);
        case Assign(keys, timeout, hkeys, order) =>
          r := Assign(keys, timeout, hkeys, order);
        case ClearPool =>
          ClearScript();
        case Gc(scan) =>
          GcScript(scan);
        case Tick(ms) =>
          now := now + ms;
        case UpdateLock(k, timeout) =>
          r := UpdateLock(k, timeout);
        case Unlock(k) =>
          locks := locks - {k};
      }
    }

    /** Any call, by any client. No Lua assert stops it, the strings it leaves spell out the specified list, and its
        pushes, skips, takes and unlinks are what the cost functions say. What the scripts read back is a list exactly
        when that list is legible. */
    method Apply(op: Op) returns (r: Reply)
      requires Spelled() && Enabled(Abs(), op) && CallLegible(Abs(), shared, op)
      modifies this
      ensures Spelled() && (Abs(), r) == Step(old(Abs()), shared, op)
      ensures Valid() <==> LuaLegible(fl)
      ensures Valid() <==> exists gl :: Linked(ReadBack(pool), head, tail, gl)
      ensures tally == Charged(old(tally), old(Abs()), shared, op)
    {
      hide Linked, ExpiriesOf, Valid, Encodes, Spells, Named, Distinct, LuaLegible, ReadBack, Step, Enabled,
           CallLegible, Charged;
      r := Serve(op);
      ReadBackIsList(pool, entries, head, tail, fl);
    }

    /** Any interleaving of calls and clock ticks, in which nodes are popped and cut only while the list is legible,
        keeps it well formed and follows the specification; the stale heads malloc skips on the way are paid for by
        the keys handed in. */
    method Execute(ops: seq<Op>)
      requires Spelled() && RunEnabled(Abs(), shared, ops) && LegibleRun(Abs(), shared, ops)
      modifies this
      ensures Spelled() && Abs() == Run(old(Abs()), shared, ops)
      ensures Valid() <==> LuaLegible(fl)
      ensures tally.pushes == old(tally).pushes + TotalPushes(old(Abs()), shared, ops)
      ensures tally.skips == old(tally).skips + TotalSkips(old(Abs()), shared, ops)
      ensures tally.skips <= old(tally).skips + |old(fl)| + TotalSupplied(shared, ops)
    {
      hide Linked, ExpiriesOf, Valid, Encodes, Spells, Parses, Named, Distinct, LuaLegible, LuaSplit, Join, ValidKey,
           Step, Enabled, Pushes, Skips, Takes, Unlinks, Supplied, CallLegible;
      ghost var s, t := Abs(), tally;
      AmortisedSkips(s, shared, ops);
      assert ops[0..] == ops;
      for i := 0 to |ops|
        invariant Spelled() && RunEnabled(Abs(), shared, ops[i..]) && LegibleRun(Abs(), shared, ops[i..])
        invariant Run(Abs(), shared, ops[i..]) == Run(s, shared, ops)
        invariant tally.pushes + TotalPushes(Abs(), shared, ops[i..]) == t.pushes + TotalPushes(s, shared, ops)
        invariant tally.skips + TotalSkips(Abs(), shared, ops[i..]) == t.skips + TotalSkips(s, shared, ops)
      {
        assert ops[i..][1..] == ops[i + 1..];
        var r := Apply(ops[i]);
      }
    }
  }

  /** A batch that validation lets through and the list cannot hold: what the strings spell out is a list of two keys,
      and what the scripts read back is none. The head leads to a key that is not there, so that popping it stops at
      "next value should not be nil". */
  method TwoKeyBatch() returns (r: Reply, pool: map<string, string>, head: string, tail: string)
    ensures r == Done
    ensures pool == map["a" := "|||b||-1", "|b" := "a||||-1"] && head == "a" && tail == "|b"
    ensures forall gl :: !Linked(ReadBack(pool), head, tail, gl)
    ensures LuaSplit(pool[head]) == Some(Entry("|", "b", -1)) && "b" !in pool
  {
    hide Linked, ExpiriesOf, Encodes, Spells, Named, Distinct, LuaLegible, LuaSplit, LuaSeen, Join, ReadBack, Step;
    var a := new RedisAllocator(false, 0);
    r := a.Extend(["a", "|b"], -1);
    TwoKeyList();
    TwoKeyStrings(a.pool, a.entries, a.head, a.tail, a.fl, a.expiries);
    ReadBackIsList(a.pool, a.entries, a.head, a.tail, a.fl);
    EntryReads(a.pool, a.entries, "a");
    return r, a.pool, a.head, a.tail;
  }

  lemma TwoKeyList()
    ensures var (t, r) := Step(State([], map[], map[], map[], 0), false, Op.Extend(["a", "|b"], -1));
            t.free == ["a", "|b"] && t.expiry == map["a" := -1, "|b" := -1] && r == Done
    ensures LeadingPipe("|b") && !LuaLegible(["a", "|b"])
  {
    var s, keys := State([], map[], map[], map[], 0), ["a", "|b"];
    assert ValidKey("a") && ValidKey("|b");
    assert keys[1..] == ["|b"] && ["|b"][1..] == [];
    assert ExtendAll(s, keys, -1) == Add(Add(s, "a", -1), "|b", -1);
    assert LeadingPipe(keys[1]);
  }

  lemma TwoKeyStrings(pool: map<string, string>, m: Hash, head: string, tail: string, fl: seq<string>,
                      x: map<string, int>)
    requires Spells(pool, m) && Linked(m, head, tail, fl) && ExpiriesOf(m, x)
    requires fl == ["a", "|b"] && x == map["a" := -1, "|b" := -1]
    ensures pool == map["a" := "|||b||-1", "|b" := "a||||-1"] && head == "a" && tail == "|b"
    ensures "a" in m && LuaSeen(m["a"]) == Entry("|", "b", -1)
  {
    assert NodeAt(m, fl, 0) && NodeAt(m, fl, 1);
    ExpiryOfEntry(m, x, "a");
    ExpiryOfEntry(m, x, "|b");
    KeyIsValid(pool, m, "a");
    KeyIsValid(pool, m, "|b");
    assert ShowInt(-1) == "-1";
    assert pool["a"] == "" + SEP + "|b" + SEP + "-1" == "|||b||-1";
    assert pool["|b"] == "a" + SEP + "" + SEP + "-1" == "a||||-1";
    assert pool.Keys == {"a", "|b"};
  }
}
