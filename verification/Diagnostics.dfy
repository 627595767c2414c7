/** The corruption checker: bounded walks with cycle detection over a snapshot of the pool, and its counters. */
module Diagnostics {
  import opened Sequences
  import opened PoolEncoding
  import opened Wrappers
  import opened FreeList

  datatype Snapshot = Snapshot(head: string, tail: string, entries: Hash, lockKeys: map<string, bool>,
                               lockTtls: map<string, int>, shared: bool, now: int) {
    predicate Locked(k: string) {
      k in lockKeys && lockKeys[k]
    }
  }

  // ---------------------------------------------------------------- walks

  datatype Direction = Forward | Backward

  function Follow(dir: Direction, e: Entry): string {
    if dir.Forward? then e.next else e.prev
  }

  datatype End = Ended | CycleAt(key: string) | MissingAt(key: string) | AllocatedAt(key: string)

  datatype Trail = Trail(nodes: seq<string>, end: End)

  /** Follow the pointers until they run out, leave the free nodes, or come back. No bound is needed. */
  function Trace(m: Hash, dir: Direction, current: string, seen: set<string>): (w: Trail)
    decreases m.Keys - seen
  {
    if current == "" then Trail([], Ended)
    else if current in seen then Trail([], CycleAt(current))
    else if current !in m then Trail([], MissingAt(current))
    else if IsMarker(m[current]) then Trail([], AllocatedAt(current))
    else
      var w := Trace(m, dir, Follow(dir, m[current]), seen + {current});
      Trail([current] + w.nodes, w.end)
  }

  predicate IsNote(k: string) {
    k != "" && k[0] == '<'
  }

  function MissingNote(k: string): (r: string)
    ensures IsNote(r)
  {
    "<missing:" + k + ">"
  }

  function AllocatedNote(k: string): (r: string)
    ensures IsNote(r)
  {
    "<allocated:" + k + ">"
  }

  lemma AllocatedNoteTells(j: string, k: string)
    requires AllocatedNote(j) == AllocatedNote(k)
    ensures j == k
  {
    assert AllocatedNote(j)[11..|j| + 11] == j;
    assert AllocatedNote(k)[11..|k| + 11] == k;
  }

  /** The list a walk returns: a walk that leaves the free nodes ends in a note saying where. */
  function Visited(w: Trail): seq<string> {
    match w.end
    case MissingAt(k) => w.nodes + [MissingNote(k)]
    case AllocatedAt(k) => w.nodes + [AllocatedNote(k)]
    case _ => w.nodes
  }

  function CycleOf(w: Trail): Option<string> {
    if w.end.CycleAt? then Some(w.end.key) else None
  }

  function Reverse<T>(s: seq<T>): (r: seq<T>)
    ensures |r| == |s| && forall i | 0 <= i < |s| :: r[i] == s[|s| - 1 - i]
  {
    if s == [] then [] else Reverse(s[1..]) + [s[0]]
  }

  /** The bounded loop returns what the unbounded walk finds: it never runs into its bound. */
  method Walk(m: Hash, dir: Direction, start: string) returns (visited: seq<string>, cycle: Option<string>)
    ensures visited == Visited(Trace(m, dir, start, {})) && cycle == CycleOf(Trace(m, dir, start, {}))
  {
    hide Distinct, MissingNote, AllocatedNote;
    visited, cycle := [], None;
    if start == "" {
      return;
    }
    var seen: set<string> := {};
    var current := start;
    ghost var whole := Trace(m, dir, start, {});
    assert Elements(visited) == {} && Distinct(visited) by {
      DistinctNothing<string>();
    }
    for i := 0 to |m| + 1
      invariant |visited| == i && Distinct(visited) && seen == Elements(visited) <= m.Keys
      invariant cycle == None
      invariant whole == Trail(visited + Trace(m, dir, current, seen).nodes, Trace(m, dir, current, seen).end)
    {
      if current == "" {
        assert visited + [] == visited;
        return;
      }
      if current in seen {
        assert visited + [] == visited;
        cycle := Some(current);
        return;
      }
      if current !in m {
        assert visited + [] == visited;
        visited := visited + [MissingNote(current)];
        return;
      }
      if IsMarker(m[current]) {
        assert visited + [] == visited;
        visited := visited + [AllocatedNote(current)];
        return;
      }
      ghost var rest := Trace(m, dir, Follow(dir, m[current]), seen + {current}).nodes;
      assert visited + ([current] + rest) == visited + [current] + rest;
      DistinctAppend(visited, current);
      visited, seen := visited + [current], seen + {current};
      current := Follow(dir, m[current]);
    }
    DistinctSize(visited);
    SubsetSize(seen, m.Keys);
    cycle := Some(current);
    assert false;
  }

  // ---------------------------------------------------------------- what the walks find on a list

  lemma {:induction false} ForwardOnList(m: Hash, head: string, tail: string, fl: seq<string>, i: nat)
    requires Proper(fl) && Linked(m, head, tail, fl) && i <= |fl|
    ensures Trace(m, Forward, At(fl, i), Elements(fl[..i])) == Trail(fl[i..], Ended)
    decreases |fl| - i
  {
    hide Linked, Proper;
    if i < |fl| {
      NeighboursInHash(m, head, tail, fl, i);
      assert fl[..i + 1] == fl[..i] + [fl[i]];
      assert Elements(fl[..i + 1]) == Elements(fl[..i]) + {fl[i]};
      ForwardOnList(m, head, tail, fl, i + 1);
    }
  }

  lemma ReverseAppend<T(!new)>(s: seq<T>, x: T)
    ensures Reverse(s + [x]) == [x] + Reverse(s)
  {
  }

  lemma ReverseTwice<T(!new)>(s: seq<T>)
    ensures Reverse(Reverse(s)) == s
  {
  }

  lemma {:induction false} BackwardOnList(m: Hash, head: string, tail: string, fl: seq<string>, i: nat)
    requires Proper(fl) && Linked(m, head, tail, fl) && i <= |fl|
    ensures Trace(m, Backward, At(fl, i - 1), Elements(fl[i..])) == Trail(Reverse(fl[..i]), Ended)
    decreases i
  {
    hide Linked, Proper, Reverse;
    if i > 0 {
      var x := fl[i - 1];
      NeighboursInHash(m, head, tail, fl, i - 1);
      BackwardOnList(m, head, tail, fl, i - 1);
      assert fl[..i] == fl[..i - 1] + [x];
      ReverseAppend(fl[..i - 1], x);
      assert fl[i - 1..] == [x] + fl[i..];
      assert Elements(fl[i - 1..]) == Elements(fl[i..]) + {x};
    } else {
      assert Reverse(fl[..0]) == [];
    }
  }

  /** The pointer of the i-th node of a walk names the next one. */
  predicate LeadsOn(m: Hash, dir: Direction, nodes: seq<string>, i: int) {
    0 <= i < |nodes| ==> nodes[i] in m && Follow(dir, m[nodes[i]]) == At(nodes, i + 1)
  }

  /** The nodes of a walk are distinct free nodes, each followed by the one its pointer names. */
  lemma {:induction false} TraceNodes(m: Hash, dir: Direction, current: string, seen: set<string>)
    ensures var w := Trace(m, dir, current, seen);
            && Distinct(w.nodes)
            && (forall k | k in w.nodes :: k in m && !IsMarker(m[k]) && k !in seen)
            && "" !in w.nodes
            && (w.end.Ended? ==> current == At(w.nodes, 0))
            && (w.end.Ended? ==> forall i :: LeadsOn(m, dir, w.nodes, i))
            && (w.nodes == [] ==> current == "" || current in seen || current !in m || IsMarker(m[current]))
            && (w.nodes != [] ==> current == w.nodes[0])
    decreases m.Keys - seen
  {
    if current != "" && current !in seen && current in m && !IsMarker(m[current]) {
      TraceNodes(m, dir, Follow(dir, m[current]), seen + {current});
      var w := Trace(m, dir, current, seen);
      var v := Trace(m, dir, Follow(dir, m[current]), seen + {current});
      assert w.nodes == [current] + v.nodes;
      forall i: int | w.end.Ended?
        ensures LeadsOn(m, dir, w.nodes, i)
      {
        assert LeadsOn(m, dir, v.nodes, i - 1);
        assert i >= 0 ==> At(w.nodes, i + 1) == At(v.nodes, i);
      }
    }
  }

  // ---------------------------------------------------------------- the check

  datatype Violation =
    | ForwardCycle(at: string)
    | BackwardCycle(at: string)
    | Mismatch(forward: seq<string>, backward: seq<string>)
    | FreeSetDiffers(walked: set<string>, inHash: set<string>)
    | EmptyPoolHasPointers
    | PointerImbalance
    | HeadMissing
    | HeadHasPrev
    | TailMissing
    | TailHasNext
    | FreeButLocked(key: string)
    | HalfAllocated(key: string)

  // ---------------------------------------------------------------- what each violation means

  /** p follows the pointers from `start`, through free entries only and through none twice. */
  ghost predicate Chain(m: Hash, dir: Direction, start: string, p: seq<string>) {
    && Distinct(p)
    && (p != [] ==> p[0] == start)
    && (forall i :: 0 <= i < |p| ==>
          p[i] != "" && p[i] in m && !(m[p[i]].prev == ALLOCATED && m[p[i]].next == ALLOCATED))
    && (forall i, j :: 0 <= i && j == i + 1 < |p| ==> p[j] == if dir.Forward? then m[p[i]].next else m[p[i]].prev)
  }

  /** Where the pointers lead after p. */
  function LeadsTo(m: Hash, dir: Direction, start: string, p: seq<string>): string {
    if p == [] then start
    else if p[|p| - 1] !in m then ""
    else if dir.Forward? then m[p[|p| - 1]].next else m[p[|p| - 1]].prev
  }

  /** p cannot go on: the pointers end, come back, or leave the free entries. */
  ghost predicate Stops(m: Hash, p: seq<string>, x: string) {
    x == "" || x in p || x !in m || (m[x].prev == ALLOCATED && m[x].next == ALLOCATED)
  }

  /** The keys of p, and a note when the pointers leave the free entries. */
  function WithNote(m: Hash, p: seq<string>, x: string): seq<string> {
    if x == "" || x in p then p
    else if x !in m then p + ["<missing:" + x + ">"]
    else p + ["<allocated:" + x + ">"]
  }

  /** What a walk lists. */
  ghost predicate Lists(m: Hash, dir: Direction, start: string, v: seq<string>) {
    exists p :: Chain(m, dir, start, p) && Stops(m, p, LeadsTo(m, dir, start, p))
                && v == WithNote(m, p, LeadsTo(m, dir, start, p))
  }

  /** `at` is the first key the pointers reach twice. */
  ghost predicate ComesBackTo(m: Hash, dir: Direction, start: string, at: string) {
    exists p :: Chain(m, dir, start, p) && at in p && LeadsTo(m, dir, start, p) == at
  }

  /** The shape of a snapshot each violation stands for. */
  ghost predicate Stands(s: Snapshot, v: Violation) {
    var m, h, t := s.entries, s.head, s.tail;
    match v
    case ForwardCycle(at) => ComesBackTo(m, Forward, h, at)
    case BackwardCycle(at) => ComesBackTo(m, Backward, t, at)
    case Mismatch(f, b) => f != b && Lists(m, Forward, h, f) && Lists(m, Backward, t, Reverse(b))
    case FreeSetDiffers(walked, inHash) =>
      && walked != inHash
      && (exists f :: Lists(m, Forward, h, f) && walked == set k | k in f && !(k != "" && k[0] == '<'))
      && inHash == set k | k in m && !(m[k].prev == ALLOCATED && m[k].next == ALLOCATED)
    case EmptyPoolHasPointers => m == map[] && (h != "" || t != "")
    case PointerImbalance => m != map[] && (h == "") != (t == "")
    case HeadMissing => m != map[] && h != "" && h !in m
    case HeadHasPrev =>
      h != "" && h in m && !(m[h].prev == ALLOCATED && m[h].next == ALLOCATED) && m[h].prev != ""
    case TailMissing => m != map[] && t != "" && t !in m
    case TailHasNext =>
      t != "" && t in m && !(m[t].prev == ALLOCATED && m[t].next == ALLOCATED) && m[t].next != ""
    case FreeButLocked(k) =>
      k in m && !(m[k].prev == ALLOCATED && m[k].next == ALLOCATED) && k in s.lockKeys && s.lockKeys[k]
    case HalfAllocated(k) => k in m && (m[k].prev == ALLOCATED) != (m[k].next == ALLOCATED)
  }

  /** A walk that starts behind `seen` and follows a chain that stops is that chain. */
  lemma {:induction false} TraceOfChain(m: Hash, dir: Direction, start: string, seen: set<string>, p: seq<string>)
    requires Chain(m, dir, start, p) && forall k | k in p :: k !in seen
    requires var x := LeadsTo(m, dir, start, p); x == "" || x in p || x in seen || x !in m || IsMarker(m[x])
    ensures var x := LeadsTo(m, dir, start, p);
            Trace(m, dir, start, seen)
            == Trail(p, if x == "" then Ended else if x in p || x in seen then CycleAt(x)
                        else if x !in m then MissingAt(x) else AllocatedAt(x))
    decreases |p|
  {
    if p == [] {
    } else {
      var rest, next := p[1..], Follow(dir, m[start]);
      assert p == [start] + rest;
      ChainBehind(m, dir, start, p);
      if rest == [] && next in {start} + seen {
        assert Trace(m, dir, next, seen + {start}) == Trail([], if next == "" then Ended else CycleAt(next));
      } else {
        TraceOfChain(m, dir, next, seen + {start}, rest);
      }
    }
  }

  lemma ChainBehind(m: Hash, dir: Direction, start: string, p: seq<string>)
    requires Chain(m, dir, start, p) && p != []
    ensures start == p[0] && start in m && start != "" && !IsMarker(m[start]) && start !in p[1..]
    ensures Chain(m, dir, Follow(dir, m[start]), p[1..])
    ensures LeadsTo(m, dir, Follow(dir, m[start]), p[1..]) == LeadsTo(m, dir, start, p)
  {
    DistinctAround(p, 0);
  }

  /** What a walk finds is such a chain. */
  lemma {:induction false} TraceIsChain(m: Hash, dir: Direction, start: string, seen: set<string>)
    ensures var p := Trace(m, dir, start, seen).nodes;
            var x := LeadsTo(m, dir, start, p);
            && Chain(m, dir, start, p) && (forall k | k in p :: k !in seen)
            && (x == "" || x in p || x in seen || x !in m || IsMarker(m[x]))
    decreases m.Keys - seen
  {
    if start == "" || start in seen || start !in m || IsMarker(m[start]) {
    } else {
      var next := Follow(dir, m[start]);
      TraceIsChain(m, dir, next, seen + {start});
      var p, q := Trace(m, dir, start, seen).nodes, Trace(m, dir, next, seen + {start}).nodes;
      assert p == [start] + q;
      ChainInFront(m, dir, start, q);
    }
  }

  lemma ChainInFront(m: Hash, dir: Direction, start: string, q: seq<string>)
    requires start in m && start != "" && !IsMarker(m[start]) && start !in q
    requires Chain(m, dir, Follow(dir, m[start]), q)
    ensures Chain(m, dir, start, [start] + q)
    ensures LeadsTo(m, dir, start, [start] + q) == LeadsTo(m, dir, Follow(dir, m[start]), q)
  {
  }

  lemma WalkLists(m: Hash, dir: Direction, start: string, v: seq<string>)
    ensures Lists(m, dir, start, v) <==> v == Visited(Trace(m, dir, start, {}))
  {
    hide Trace, Distinct;
    TraceIsChain(m, dir, start, {});
    var q := Trace(m, dir, start, {}).nodes;
    TraceOfChain(m, dir, start, {}, q);
    if Lists(m, dir, start, v) {
      var p :| Chain(m, dir, start, p) && Stops(m, p, LeadsTo(m, dir, start, p))
               && v == WithNote(m, p, LeadsTo(m, dir, start, p));
      TraceOfChain(m, dir, start, {}, p);
    }
  }

  lemma WalkComesBack(m: Hash, dir: Direction, start: string, at: string)
    ensures ComesBackTo(m, dir, start, at) <==> CycleOf(Trace(m, dir, start, {})) == Some(at)
  {
    hide Trace, Distinct;
    TraceIsChain(m, dir, start, {});
    var q := Trace(m, dir, start, {}).nodes;
    TraceOfChain(m, dir, start, {}, q);
    if ComesBackTo(m, dir, start, at) {
      var p :| Chain(m, dir, start, p) && at in p && LeadsTo(m, dir, start, p) == at;
      TraceOfChain(m, dir, start, {}, p);
    }
  }

  // ---------------------------------------------------------------- the check itself

  function FreeNodes(m: Hash): set<string> {
    set k | k in m && !IsMarker(m[k])
  }

  function Walked(visited: seq<string>): set<string> {
    set k | k in visited && !IsNote(k)
  }

  predicate EntryFine(s: Snapshot, k: string)
    requires k in s.entries
  {
    var e := s.entries[k];
    && (IsMarker(e) || !s.Locked(k))
    && (e.prev == ALLOCATED <==> e.next == ALLOCATED)
  }

  predicate WalksFine(s: Snapshot) {
    var f, b := Trace(s.entries, Forward, s.head, {}), Trace(s.entries, Backward, s.tail, {});
    && !f.end.CycleAt? && !b.end.CycleAt?
    && Visited(f) == Reverse(Visited(b))
    && Walked(Visited(f)) == FreeNodes(s.entries)
  }

  predicate EndsFine(s: Snapshot) {
    && (s.head == "" <==> s.tail == "")
    && (s.head != "" ==> s.head in s.entries && (IsMarker(s.entries[s.head]) || s.entries[s.head].prev == ""))
    && (s.tail != "" ==> s.tail in s.entries && (IsMarker(s.entries[s.tail]) || s.entries[s.tail].next == ""))
  }

  /** A list all right, nobody holds a key on it, and no key on it looks like one of the checker's notes. The keys of
      the pool may be anything, even the empty name and the mark. */
  ghost predicate GoodList(s: Snapshot) {
    exists fl :: Linked(s.entries, s.head, s.tail, fl) && Proper(fl) && forall k | k in fl :: !s.Locked(k) && !IsNote(k)
  }

  /** The one broken shape that passes: everything allocated, yet both pointers name one of the members. */
  predicate DanglingPair(s: Snapshot) {
    s.head == s.tail != "" && s.head in s.entries && forall k | k in s.entries :: IsMarker(s.entries[k])
  }

  /** It really is broken: no list fits it. */
  lemma DanglingPairIsNoList(s: Snapshot)
    requires DanglingPair(s)
    ensures !GoodList(s) && forall fl :: !Linked(s.entries, s.head, s.tail, fl)
  {
    forall fl: seq<string>
      ensures !Linked(s.entries, s.head, s.tail, fl)
    {
      assert s.head == At(fl, 0) ==> !NodeAt(s.entries, fl, 0);
    }
  }

  /** An instance: one key, allocated, named by both pointers. */
  method DanglingPairIsAccepted() returns (s: Snapshot, violations: seq<Violation>)
    ensures DanglingPair(s) && violations == []
  {
    s := Snapshot("a", "a", map["a" := Marker(-1)], map[], map[], false, 0);
    violations := CheckInvariants(s);
  }

  /** `check_invariants` reports exactly the violations that stand, each with its key or with what was walked, and
      nothing exactly on a good list and on a dangling pair. */
  method CheckInvariants(s: Snapshot) returns (violations: seq<Violation>)
    ensures forall v :: v in violations <==> Stands(s, v)
    ensures violations == [] <==> GoodList(s) || DanglingPair(s)
    ensures violations == [] ==> forall k | k in s.entries :: EntryFine(s, k)
  {
    hide Stands, WalksFine, EndsFine, EntryFine, GoodList, DanglingPair;
    violations := CheckWalks(s);
    if s.entries == map[] {
      if s.head != "" || s.tail != "" {
        violations := violations + [EmptyPoolHasPointers];
      }
      EmptyPool(s);
      Decides(s);
      return;
    }
    FullPool(s);
    var more := CheckEnds(s);
    violations := violations + more;
    more := CheckEntries(s);
    violations := violations + more;
    Decides(s);
  }

  predicate OfWalks(v: Violation) {
    v.ForwardCycle? || v.BackwardCycle? || v.Mismatch? || v.FreeSetDiffers?
  }

  predicate OfEntries(v: Violation) {
    v.FreeButLocked? || v.HalfAllocated?
  }

  predicate OfEnds(v: Violation) {
    !OfWalks(v) && !OfEntries(v) && !v.EmptyPoolHasPointers?
  }

  lemma EmptyPool(s: Snapshot)
    requires s.entries == map[]
    ensures forall v :: Stands(s, v) && !OfWalks(v) ==> v == EmptyPoolHasPointers
    ensures Stands(s, EmptyPoolHasPointers) <==> s.head != "" || s.tail != ""
  {
  }

  lemma FullPool(s: Snapshot)
    requires s.entries != map[]
    ensures !Stands(s, EmptyPoolHasPointers)
  {
  }

  method CheckWalks(s: Snapshot) returns (violations: seq<Violation>)
    ensures forall v :: v in violations <==> OfWalks(v) && Stands(s, v)
    ensures violations == [] <==> WalksFine(s)
  {
    hide Stands, Trace, Distinct, Reverse;
    violations := [];
    var forward, forwardCycle := Walk(s.entries, Forward, s.head);
    var backward, backwardCycle := Walk(s.entries, Backward, s.tail);
    backward := Reverse(backward);
    if forwardCycle.Some? {
      violations := violations + [ForwardCycle(forwardCycle.value)];
    }
    if backwardCycle.Some? {
      violations := violations + [BackwardCycle(backwardCycle.value)];
    }
    if forward != backward {
      violations := violations + [Mismatch(forward, backward)];
    }
    if Walked(forward) != FreeNodes(s.entries) {
      violations := violations + [FreeSetDiffers(Walked(forward), FreeNodes(s.entries))];
    }
    forall v | OfWalks(v)
      ensures Stands(s, v) <==> v in violations
    {
      WalkStands(s, v);
    }
  }

  /** The walk violations, told from the two walks. */
  lemma WalkStands(s: Snapshot, v: Violation)
    requires OfWalks(v)
    ensures var f, b := Trace(s.entries, Forward, s.head, {}), Trace(s.entries, Backward, s.tail, {});
            Stands(s, v) <==>
              match v
              case ForwardCycle(at) => CycleOf(f) == Some(at)
              case BackwardCycle(at) => CycleOf(b) == Some(at)
              case Mismatch(x, y) => x == Visited(f) && y == Reverse(Visited(b)) && x != y
              case FreeSetDiffers(x, y) => x == Walked(Visited(f)) && y == FreeNodes(s.entries) && x != y
              case _ => false
  {
    hide Trace, Distinct, Lists, ComesBackTo, Visited, CycleOf, Reverse;
    var m := s.entries;
    var f, b := Trace(m, Forward, s.head, {}), Trace(m, Backward, s.tail, {});
    match v {
      case ForwardCycle(at) => WalkComesBack(m, Forward, s.head, at);
      case BackwardCycle(at) => WalkComesBack(m, Backward, s.tail, at);
      case Mismatch(x, y) =>
        WalkLists(m, Forward, s.head, x);
        WalkLists(m, Backward, s.tail, Reverse(y));
        ReverseTwice(y);
        ReverseTwice(Visited(b));
      case FreeSetDiffers(x, y) =>
        WalkLists(m, Forward, s.head, Visited(f));
        forall g
          ensures Lists(m, Forward, s.head, g) <==> g == Visited(f)
        {
          WalkLists(m, Forward, s.head, g);
        }
      case _ =>
    }
  }

  method CheckEnds(s: Snapshot) returns (violations: seq<Violation>)
    requires s.entries != map[]
    ensures forall v :: v in violations <==> OfEnds(v) && Stands(s, v)
    ensures violations == [] <==> EndsFine(s)
  {
    violations := [];
    if (s.head != "") != (s.tail != "") {
      violations := violations + [PointerImbalance];
    }
    if s.head != "" {
      if s.head !in s.entries {
        violations := violations + [HeadMissing];
      } else if !IsMarker(s.entries[s.head]) && s.entries[s.head].prev != "" {
        violations := violations + [HeadHasPrev];
      }
    }
    if s.tail != "" {
      if s.tail !in s.entries {
        violations := violations + [TailMissing];
      } else if !IsMarker(s.entries[s.tail]) && s.entries[s.tail].next != "" {
        violations := violations + [TailHasNext];
      }
    }
  }

  /** The key an entry violation names. */
  function KeyOf(v: Violation): string
    requires OfEntries(v)
  {
    v.key
  }

  /** The entries in whatever order the dictionary yields them. */
  method CheckEntries(s: Snapshot) returns (violations: seq<Violation>)
    ensures forall v :: v in violations <==> OfEntries(v) && Stands(s, v)
    ensures violations == [] <==> forall k | k in s.entries :: EntryFine(s, k)
  {
    hide Lists, ComesBackTo;
    violations := [];
    var todo := s.entries.Keys;
    while todo != {}
      invariant todo <= s.entries.Keys
      invariant violations == [] <==> forall k | k in s.entries && k !in todo :: EntryFine(s, k)
      invariant forall v :: v in violations <==> OfEntries(v) && KeyOf(v) !in todo && Stands(s, v)
      decreases todo
    {
      var k :| k in todo;
      var e := s.entries[k];
      if !IsMarker(e) && s.Locked(k) {
        violations := violations + [FreeButLocked(k)];
      }
      if e.prev == ALLOCATED && e.next != ALLOCATED {
        violations := violations + [HalfAllocated(k)];
      }
      if e.next == ALLOCATED && e.prev != ALLOCATED {
        violations := violations + [HalfAllocated(k)];
      }
      todo := todo - {k};
    }
  }

  // ---------------------------------------------------------------- what the check decides

  ghost predicate Clean(s: Snapshot) {
    && WalksFine(s)
    && EndsFine(s)
    && forall k | k in s.entries :: EntryFine(s, k)
  }

  lemma Decides(s: Snapshot)
    ensures Clean(s) <==> GoodList(s) || DanglingPair(s)
    ensures s.entries == map[] ==> (Clean(s) <==> WalksFine(s) && s.head == "" && s.tail == "")
  {
    if Clean(s) {
      CleanMeans(s);
    }
    if GoodList(s) {
      var fl :| Linked(s.entries, s.head, s.tail, fl) && Proper(fl) && forall k | k in fl :: !s.Locked(k) && !IsNote(k);
      GoodListPasses(s, fl);
    }
    if DanglingPair(s) {
      DanglingPairPasses(s);
    }
  }

  lemma WalksOnList(s: Snapshot, fl: seq<string>)
    requires Proper(fl) && Linked(s.entries, s.head, s.tail, fl)
    ensures Trace(s.entries, Forward, s.head, {}) == Trail(fl, Ended)
    ensures Trace(s.entries, Backward, s.tail, {}) == Trail(Reverse(fl), Ended)
  {
    hide Distinct, Trace;
    ForwardOnList(s.entries, s.head, s.tail, fl, 0);
    BackwardOnList(s.entries, s.head, s.tail, fl, |fl|);
    assert fl[..0] == [] && fl[0..] == fl && fl[..|fl|] == fl && fl[|fl|..] == [];
    assert Elements<string>([]) == {};
  }

  lemma EntriesOnList(s: Snapshot, fl: seq<string>, k: string)
    requires Proper(fl) && Linked(s.entries, s.head, s.tail, fl) && k in s.entries
    requires k in fl ==> !s.Locked(k)
    ensures (k in fl <==> !IsMarker(s.entries[k])) && EntryFine(s, k)
  {
    hide Distinct;
    OnListOrMarker(s.entries, s.head, s.tail, fl, k);
    if k in fl {
      var i :| 0 <= i < |fl| && fl[i] == k;
      NeighboursInHash(s.entries, s.head, s.tail, fl, i);
    }
  }

  lemma WalksFineOnList(s: Snapshot, fl: seq<string>)
    requires Proper(fl) && Linked(s.entries, s.head, s.tail, fl)
    requires forall k | k in fl :: !IsNote(k)
    requires forall k | k in s.entries :: k in fl <==> !IsMarker(s.entries[k])
    ensures WalksFine(s)
  {
    hide Distinct, Trace, Proper, IsNote, Reverse, IsMarker;
    WalksOnList(s, fl);
    ReverseTwice(fl);
    assert Walked(fl) == FreeNodes(s.entries);
  }

  lemma GoodListPasses(s: Snapshot, fl: seq<string>)
    requires Proper(fl) && Linked(s.entries, s.head, s.tail, fl)
    requires forall k | k in fl :: !s.Locked(k) && !IsNote(k)
    ensures Clean(s)
  {
    hide Linked, EntryFine, Proper, IsNote, WalksFine, IsMarker;
    forall k | k in s.entries
      ensures (k in fl <==> !IsMarker(s.entries[k])) && EntryFine(s, k)
    {
      EntriesOnList(s, fl, k);
    }
    WalksFineOnList(s, fl);
    EndsOfList(s.entries, s.head, s.tail, fl);
  }

  lemma DanglingPairPasses(s: Snapshot)
    requires DanglingPair(s)
    ensures Clean(s)
  {
    assert FreeNodes(s.entries) == {};
    var note := AllocatedNote(s.head);
    assert Visited(Trace(s.entries, Forward, s.head, {})) == [note];
    assert Walked([note]) == {};
  }

  /** On a clean snapshot, no free node looks like a note, and the forward walk visits every free node. */
  lemma FreeNodesAreWalked(s: Snapshot)
    requires WalksFine(s)
    ensures forall k | k in FreeNodes(s.entries) :: k in Trace(s.entries, Forward, s.head, {}).nodes && !IsNote(k)
  {
    hide Trace;
    var f := Trace(s.entries, Forward, s.head, {});
    assert forall k | k in Visited(f) :: k in f.nodes || IsNote(k);
  }

  /** A clean snapshot whose forward walk ran to its end is a good list. */
  lemma CleanAndEnded(s: Snapshot)
    requires Clean(s) && Trace(s.entries, Forward, s.head, {}).end.Ended?
    ensures GoodList(s)
  {
    hide Distinct, Trace, IsNote, Walked, Proper;
    var m := s.entries;
    var f, b := Trace(m, Forward, s.head, {}), Trace(m, Backward, s.tail, {});
    TraceNodes(m, Forward, s.head, {});
    TraceNodes(m, Backward, s.tail, {});
    FreeNodesAreWalked(s);
    var fl := f.nodes;
    assert forall k | k in fl :: k in FreeNodes(m);
    var vb := Visited(b);
    assert |vb| == |fl|;
    assert b.nodes == vb by {
      assert fl != [] ==> vb[|fl| - 1] == fl[0] && fl[0] in fl;
    }
    BackLinks(m, fl, b.nodes);
    assert Linked(m, s.head, s.tail, fl);
    MarkStandsAlone(s, fl);
  }

  /** A neighbour of a node named like the mark would look half allocated. */
  lemma MarkStandsAlone(s: Snapshot, fl: seq<string>)
    requires forall k | k in s.entries :: EntryFine(s, k)
    requires "" !in fl && forall k | k in fl :: k in s.entries && !IsMarker(s.entries[k])
    requires forall i :: 0 <= i < |fl| ==> NodeAt(s.entries, fl, i)
    ensures Proper(fl)
  {
    forall i | 0 <= i < |fl| && |fl| > 1
      ensures fl[i] != ALLOCATED
    {
      var j := if i > 0 then i - 1 else i + 1;
      assert NodeAt(s.entries, fl, j) && fl[j] in fl && EntryFine(s, fl[j]);
    }
  }

  lemma BackLinks(m: Hash, fl: seq<string>, back: seq<string>)
    requires fl == Reverse(back)
    requires forall i :: LeadsOn(m, Forward, fl, i)
    requires forall i :: LeadsOn(m, Backward, back, i)
    ensures forall i :: 0 <= i < |fl| ==> NodeAt(m, fl, i)
    ensures At(back, 0) == At(fl, |fl| - 1)
  {
    forall i | 0 <= i < |fl|
      ensures NodeAt(m, fl, i)
    {
      var j := |fl| - 1 - i;
      assert LeadsOn(m, Forward, fl, i) && LeadsOn(m, Backward, back, j);
      assert At(back, j + 1) == At(fl, i - 1);
    }
  }

  lemma CleanMeans(s: Snapshot)
    requires Clean(s)
    ensures GoodList(s) || DanglingPair(s)
  {
    var m := s.entries;
    var f, b := Trace(m, Forward, s.head, {}), Trace(m, Backward, s.tail, {});
    if f.end.Ended? {
      CleanAndEnded(s);
    } else {
      hide Distinct, IsNote, Walked, MissingNote, AllocatedNote, Trace;
      TraceNodes(m, Forward, s.head, {});
      TraceNodes(m, Backward, s.tail, {});
      FreeNodesAreWalked(s);
      var vf, vb := Visited(f), Visited(b);
      assert b.nodes != [] ==> vb[0] == b.nodes[0] && b.nodes[0] in b.nodes;
      assert forall k | k in b.nodes :: k in FreeNodes(m);
      assert vb[0] == vf[|vf| - 1];
      assert IsNote(vb[0]);
      OneStep(m, Forward, s.head);
      OneStep(m, Backward, s.tail);
      AllocatedNoteTells(s.head, s.tail);
      assert forall k | k in m :: IsMarker(m[k]) || k in FreeNodes(m);
    }
  }

  lemma OneStep(m: Hash, dir: Direction, start: string)
    ensures var w := Trace(m, dir, start, {});
            w.nodes == [] && start in m && start != "" ==> w.end == AllocatedAt(start)
  {
  }

  // ---------------------------------------------------------------- counters

  datatype PoolDiagnostics = PoolDiagnostics(total: nat, free: nat, allocatedMarkers: nat, locked: nat, expired: nat,
                                             permanent: nat, reclaimable: nat)

  function LockedEntries(s: Snapshot): set<string> {
    set k | k in s.entries && s.Locked(k)
  }

  function Reclaimable(s: Snapshot): set<string> {
    set k | k in s.entries && IsMarker(s.entries[k]) && !s.Locked(k)
  }

  function ExpiredEntries(s: Snapshot): set<string> {
    set k | k in s.entries && 0 < s.entries[k].expiry <= s.now
  }

  function PermanentEntries(s: Snapshot): set<string> {
    set k | k in s.entries && s.Locked(k) && k in s.lockTtls && s.lockTtls[k] == -1
  }

  /** The counters after the entries in `done`. */
  ghost predicate Tallied(s: Snapshot, done: set<string>, d: PoolDiagnostics) {
    && d.free == |FreeNodes(s.entries) * done| && d.free + d.allocatedMarkers == |done|
    && d.locked == |LockedEntries(s) * done| && d.reclaimable == |Reclaimable(s) * done|
    && d.expired == |ExpiredEntries(s) * done| && d.permanent == |PermanentEntries(s) * done|
  }

  function Bit(b: bool): nat {
    if b then 1 else 0
  }

  /** What one entry adds to the counters. */
  function CountEntry(s: Snapshot, k: string, d: PoolDiagnostics): PoolDiagnostics
    requires k in s.entries
  {
    var e, isLocked := s.entries[k], s.Locked(k);
    var ttl := if k in s.lockTtls then s.lockTtls[k] else -2;
    PoolDiagnostics(d.total,
                    d.free + Bit(!IsMarker(e)),
                    d.allocatedMarkers + Bit(IsMarker(e)),
                    d.locked + Bit(isLocked),
                    d.expired + Bit(e.expiry > 0 && e.expiry <= s.now),
                    d.permanent + Bit(isLocked && ttl == -1),
                    d.reclaimable + Bit(IsMarker(e) && !isLocked))
  }

  /** Each counter is the size of the set it names, so free and allocated partition the pool; on a snapshot that
      passes the check, locked and reclaimable partition the allocated members. */
  method SummarizePool(s: Snapshot) returns (d: PoolDiagnostics)
    ensures d.total == |s.entries| && d.free == |FreeNodes(s.entries)| && d.free + d.allocatedMarkers == d.total
    ensures d.locked == |LockedEntries(s)| && d.reclaimable == |Reclaimable(s)|
    ensures d.expired == |ExpiredEntries(s)| && d.permanent == |PermanentEntries(s)|
    ensures (forall k | k in s.entries :: EntryFine(s, k)) ==> d.locked + d.reclaimable == d.allocatedMarkers
  {
    hide Tallied, CountEntry, FreeNodes, LockedEntries, ExpiredEntries, PermanentEntries, Reclaimable;
    d := PoolDiagnostics(|s.entries|, 0, 0, 0, 0, 0, 0);
    var todo := s.entries.Keys;
    ghost var done: set<string> := {};
    TallyNothing(s, d);
    while todo != {}
      invariant todo <= s.entries.Keys && done == s.entries.Keys - todo
      invariant Tallied(s, done, d) && d.total == |s.entries|
      decreases todo
    {
      var k :| k in todo;
      TallyStep(s, done, k, d);
      d := CountEntry(s, k, d);
      todo, done := todo - {k}, done + {k};
    }
    assert done == s.entries.Keys;
    TallyAll(s, d);
  }

  lemma CountOne(S: set<string>, done: set<string>, k: string)
    requires k !in done
    ensures |S * (done + {k})| == |S * done| + Bit(k in S)
  {
    assert S * (done + {k}) == (S * done) + if k in S then {k} else {};
  }

  lemma TallyNothing(s: Snapshot, d: PoolDiagnostics)
    requires d == PoolDiagnostics(|s.entries|, 0, 0, 0, 0, 0, 0)
    ensures Tallied(s, {}, d)
  {
    hide FreeNodes, LockedEntries, ExpiredEntries, PermanentEntries, Reclaimable;
    assert forall S: set<string> :: S * {} == {};
  }

  lemma InSets(s: Snapshot, k: string)
    requires k in s.entries
    ensures k in FreeNodes(s.entries) <==> !IsMarker(s.entries[k])
    ensures k in LockedEntries(s) <==> s.Locked(k)
    ensures k in Reclaimable(s) <==> IsMarker(s.entries[k]) && !s.Locked(k)
    ensures k in ExpiredEntries(s) <==> s.entries[k].expiry > 0 && s.entries[k].expiry <= s.now
    ensures k in PermanentEntries(s) <==> s.Locked(k) && k in s.lockTtls && s.lockTtls[k] == -1
  {
  }

  lemma TallyStep(s: Snapshot, done: set<string>, k: string, d: PoolDiagnostics)
    requires k in s.entries && k !in done && Tallied(s, done, d)
    ensures Tallied(s, done + {k}, CountEntry(s, k, d)) && CountEntry(s, k, d).total == d.total
  {
    hide FreeNodes, LockedEntries, ExpiredEntries, PermanentEntries, Reclaimable, IsMarker;
    InSets(s, k);
    CountOne(FreeNodes(s.entries), done, k);
    CountOne(LockedEntries(s), done, k);
    CountOne(ExpiredEntries(s), done, k);
    CountOne(PermanentEntries(s), done, k);
    CountOne(Reclaimable(s), done, k);
  }

  lemma TallyAll(s: Snapshot, d: PoolDiagnostics)
    requires Tallied(s, s.entries.Keys, d)
    ensures d.free == |FreeNodes(s.entries)| && d.free + d.allocatedMarkers == |s.entries|
    ensures d.locked == |LockedEntries(s)| && d.reclaimable == |Reclaimable(s)|
    ensures d.expired == |ExpiredEntries(s)| && d.permanent == |PermanentEntries(s)|
    ensures (forall k | k in s.entries :: EntryFine(s, k)) ==> d.locked + d.reclaimable == d.allocatedMarkers
  {
    CountsAreMembers(s);
    AllOfThem(FreeNodes(s.entries), s.entries.Keys);
    AllOfThem(LockedEntries(s), s.entries.Keys);
    AllOfThem(Reclaimable(s), s.entries.Keys);
    AllOfThem(ExpiredEntries(s), s.entries.Keys);
    AllOfThem(PermanentEntries(s), s.entries.Keys);
    hide FreeNodes, LockedEntries, ExpiredEntries, PermanentEntries, Reclaimable;
    if forall k | k in s.entries :: EntryFine(s, k) {
      AllocatedPartition(s);
    }
  }

  lemma AllOfThem(S: set<string>, all: set<string>)
    requires S <= all
    ensures S * all == S
  {
  }

  lemma CountsAreMembers(s: Snapshot)
    ensures var all := s.entries.Keys;
            FreeNodes(s.entries) <= all && LockedEntries(s) <= all && Reclaimable(s) <= all
            && ExpiredEntries(s) <= all && PermanentEntries(s) <= all
  {
  }

  lemma InCounts(s: Snapshot, k: string)
    requires k in s.entries && EntryFine(s, k)
    ensures if k in FreeNodes(s.entries) then k !in LockedEntries(s) && k !in Reclaimable(s)
            else k in LockedEntries(s) <==> k !in Reclaimable(s)
  {
  }

  lemma ThreeWay(F: set<string>, L: set<string>, R: set<string>, all: set<string>)
    requires F <= all && L <= all && R <= all
    requires forall k | k in all :: if k in F then k !in L && k !in R else (k in L <==> k !in R)
    ensures |F| + |L| + |R| == |all|
  {
    assert F !! L && F + L !! R;
    assert |F + L| == |F| + |L|;
    assert |(F + L) + R| == |F + L| + |R|;
    assert (F + L) + R == all;
  }

  lemma AllocatedPartition(s: Snapshot)
    requires forall k | k in s.entries :: EntryFine(s, k)
    ensures |FreeNodes(s.entries)| + |LockedEntries(s)| + |Reclaimable(s)| == |s.entries|
  {
    hide FreeNodes, LockedEntries, Reclaimable, EntryFine;
    CountsAreMembers(s);
    forall k | k in s.entries.Keys
      ensures if k in FreeNodes(s.entries) then k !in LockedEntries(s) && k !in Reclaimable(s)
              else k in LockedEntries(s) <==> k !in Reclaimable(s)
    {
      InCounts(s, k);
    }
    ThreeWay(FreeNodes(s.entries), LockedEntries(s), Reclaimable(s), s.entries.Keys);
  }
}
