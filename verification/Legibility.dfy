/** When the strings of a pool can be read back: pipes at the edges of keys, over lists and over runs. */
module Legibility {
  import opened Sequences
  import opened PoolEncoding
  import opened FreeList
  import opened PoolSpec
  import opened RunProperties

  /** No key behind another one has a leading pipe. */
  ghost predicate LuaLegible(fl: seq<string>) {
    forall i | 1 <= i < |fl| :: !LeadingPipe(fl[i])
  }

  /** No key in front of another one has a trailing pipe. */
  ghost predicate PyLegible(fl: seq<string>) {
    forall i | 0 <= i < |fl| - 1 :: !TrailingPipe(fl[i])
  }

  /** The hash as the scripts, or the diagnostics, see it. */
  function LuaView(m: Hash): (r: Hash)
    ensures r.Keys == m.Keys
  {
    map k | k in m :: LuaSeen(m[k])
  }

  function PyView(m: Hash): (r: Hash)
    ensures r.Keys == m.Keys
  {
    map k | k in m :: PySeen(m[k])
  }

  ghost predicate NextReadable(m: Hash, k: string) {
    k in m && !LeadingPipe(m[k].next)
  }

  ghost predicate Readable(m: Hash) {
    forall k {:trigger NextReadable(m, k)} | k in m :: NextReadable(m, k)
  }

  /** Along a list, the keys with a leading pipe stand in the `next` field of somebody unless they stand first. */
  lemma ReadableList(m: Hash, head: string, tail: string, fl: seq<string>)
    requires Linked(m, head, tail, fl)
    ensures Readable(m) <==> LuaLegible(fl)
  {
    MarkHasNoPipe();
    forall i | 1 <= i < |fl| && Readable(m)
      ensures !LeadingPipe(fl[i])
    {
      assert NodeAt(m, fl, i - 1) && NextReadable(m, fl[i - 1]);
    }
    forall k | k in m && LuaLegible(fl)
      ensures NextReadable(m, k)
    {
      if k in fl {
        var i :| 0 <= i < |fl| && fl[i] == k;
        assert NodeAt(m, fl, i);
      }
    }
  }

  /** Where two hashes lead along the same keys, they name the same predecessor. */
  lemma SamePredecessor(m: Hash, m': Hash, head: string, t: string, u: string, fl: seq<string>, gl: seq<string>, i: nat)
    requires Named(m) && Linked(m, head, t, fl) && Linked(m', head, u, gl) && i < |fl|
    requires forall j | 0 <= j < i :: fl[j] in m' && m'[fl[j]].next == m[fl[j]].next
    ensures fl[i] in m && fl[i] in m' && m'[fl[i]].prev == m[fl[i]].prev
  {
    LinkedPrefix(m, m', head, t, u, fl, gl, i + 1);
    assert fl[i] == fl[..i + 1][i] == gl[..i + 1][i] == gl[i];
    assert NodeAt(m, fl, i) && NodeAt(m', gl, i);
    if i > 0 {
      assert fl[i - 1] == fl[..i + 1][i - 1] == gl[..i + 1][i - 1] == gl[i - 1];
    }
  }

  lemma FirstLeadingPipe(fl: seq<string>) returns (i: nat)
    requires !LuaLegible(fl)
    ensures 1 <= i < |fl| && LeadingPipe(fl[i]) && forall j | 1 <= j < i :: !LeadingPipe(fl[j])
  {
    i := 1;
    while !LeadingPipe(fl[i])
      invariant 1 <= i < |fl| && exists j | i <= j < |fl| :: LeadingPipe(fl[j])
      invariant forall j | 1 <= j < i :: !LeadingPipe(fl[j])
      decreases |fl| - i
    {
      i := i + 1;
    }
  }

  lemma FirstTrailingPipe(fl: seq<string>) returns (i: nat)
    requires !PyLegible(fl)
    ensures i < |fl| - 1 && TrailingPipe(fl[i]) && forall j | 0 <= j < i :: !TrailingPipe(fl[j])
  {
    i := 0;
    while !TrailingPipe(fl[i])
      invariant i < |fl| - 1 && exists j | i <= j < |fl| - 1 :: TrailingPipe(fl[j])
      invariant forall j | 0 <= j < i :: !TrailingPipe(fl[j])
      decreases |fl| - i
    {
      i := i + 1;
    }
  }

  /** The scripts see the list they wrote, or any list at all from the same head, exactly when no key behind another
      one has a leading pipe. */
  lemma LuaSeesList(m: Hash, head: string, tail: string, fl: seq<string>)
    requires Named(m) && Linked(m, head, tail, fl)
    ensures LuaView(m) == m <==> LuaLegible(fl)
    ensures (exists gl :: Linked(LuaView(m), head, tail, gl)) <==> LuaLegible(fl)
  {
    hide Named, Distinct;
    ReadableList(m, head, tail, fl);
    if LuaLegible(fl) {
      forall k | k in m
        ensures LuaSeen(m[k]) == m[k]
      {
        assert NextReadable(m, k);
      }
      assert LuaView(m) == m;
    } else {
      LuaSeesNoList(m, head, tail, fl);
    }
  }

  lemma LuaSeesNoList(m: Hash, head: string, tail: string, fl: seq<string>)
    requires Named(m) && Linked(m, head, tail, fl) && !LuaLegible(fl)
    ensures LuaView(m) != m
    ensures forall gl :: !Linked(LuaView(m), head, tail, gl)
  {
    var i := FirstLeadingPipe(fl);
    forall j | 0 <= j < i
      ensures fl[j] in m && m[fl[j]].next == fl[j + 1]
      ensures j + 1 < i ==> LuaView(m)[fl[j]] == m[fl[j]]
    {
      assert NodeAt(m, fl, j);
    }
    assert |LuaView(m)[fl[i - 1]].prev| == |m[fl[i - 1]].prev| + 1;
    forall gl | Linked(LuaView(m), head, tail, gl)
      ensures false
    {
      SamePredecessor(m, LuaView(m), head, tail, tail, fl, gl, i - 1);
    }
  }

  /** The diagnostics see it exactly when no key in front of another one has a trailing pipe. */
  lemma PySeesList(m: Hash, head: string, tail: string, fl: seq<string>)
    requires Named(m) && Linked(m, head, tail, fl)
    ensures PyView(m) == m <==> PyLegible(fl)
    ensures (exists gl :: Linked(PyView(m), head, tail, gl)) <==> PyLegible(fl)
  {
    hide Named, Distinct;
    if PyLegible(fl) {
      forall k | k in m
        ensures PySeen(m[k]) == m[k]
      {
        if k in fl {
          var i :| 0 <= i < |fl| && fl[i] == k;
          assert NodeAt(m, fl, i);
        }
      }
      assert PyView(m) == m;
    } else {
      PySeesNoList(m, head, tail, fl);
    }
  }

  /** The first key with a trailing pipe that has a successor spoils how the successor's entry is seen, and no other
      entry up to there. */
  lemma PyMisreads(m: Hash, head: string, tail: string, fl: seq<string>) returns (i: nat)
    requires Linked(m, head, tail, fl) && !PyLegible(fl)
    ensures 0 < i < |fl| && fl[i] in m && PyView(m)[fl[i]].prev != m[fl[i]].prev
    ensures forall j | 0 <= j < i :: fl[j] in m && PyView(m)[fl[j]] == m[fl[j]]
  {
    hide Distinct;
    var p := FirstTrailingPipe(fl);
    i := p + 1;
    forall j | 0 <= j < i
      ensures fl[j] in m && PyView(m)[fl[j]] == m[fl[j]]
    {
      assert NodeAt(m, fl, j);
    }
    assert NodeAt(m, fl, i);
    assert |PyView(m)[fl[i]].prev| == |m[fl[i]].prev| - 1;
  }

  lemma PySeesNoList(m: Hash, head: string, tail: string, fl: seq<string>)
    requires Named(m) && Linked(m, head, tail, fl) && !PyLegible(fl)
    ensures PyView(m) != m
    ensures forall gl :: !Linked(PyView(m), head, tail, gl)
  {
    hide Linked, Named, Distinct, PyLegible, PyView;
    var i := PyMisreads(m, head, tail, fl);
    forall gl | Linked(PyView(m), head, tail, gl)
      ensures false
    {
      SamePredecessor(m, PyView(m), head, tail, tail, fl, gl, i);
    }
  }

  /** The entry test of push_to_tail. */
  predicate LooksFree(e: Entry) {
    (e.prev == ALLOCATED || e.prev == "") && (e.next == "" || e.next == ALLOCATED)
  }

  /** What the entry test sees, legible or not: it lets a listed node through only when that node is
      the whole list. */
  lemma FreeToPush(m: Hash, head: string, tail: string, fl: seq<string>, k: string)
    requires Named(m) && Linked(m, head, tail, fl)
    ensures k in fl ==> k in m
    ensures k in m ==> (LooksFree(LuaSeen(m[k])) <==> k !in fl || fl == [k])
  {
    MarkHasNoPipe();
    if k in m {
      OnlyNodeLooksFree(m, head, tail, fl, k);
      if LeadingPipe(m[k].next) {
        assert LuaSeen(m[k]).prev[|m[k].prev|] == '|';
      }
    }
  }

  /** Misread or not, the `prev` field of a member tells whether it is on the list. */
  lemma SeenOnList(m: Hash, head: string, tail: string, fl: seq<string>, k: string)
    requires Named(m) && Linked(m, head, tail, fl) && k in m
    ensures k in fl <==> LuaSeen(m[k]).prev != ALLOCATED
    ensures k !in fl ==> LuaSeen(m[k]).next == ALLOCATED
    ensures LuaSeen(m[k]).expiry == m[k].expiry
  {
    MarkHasNoPipe();
    OnListOrMarker(m, head, tail, fl, k);
    if LeadingPipe(m[k].next) {
      assert LuaSeen(m[k]).prev[|m[k].prev|] == '|';
    }
  }

  // ---------------------------------------------------------------- runs

  lemma PlainIsLegible(fl: seq<string>, keys: set<string>)
    ensures Elements(fl) <= keys && (forall k | k in keys :: !LeadingPipe(k)) ==> LuaLegible(fl)
  {
    assert forall i | 0 <= i < |fl| :: fl[i] in Elements(fl);
  }

  /** Whenever a gc pass cuts a node out of the list, the list is legible. */
  ghost predicate GcLegible(s: State, scan: seq<string>)
    requires s.Wf() && Distinct(scan) && forall k | k in scan :: k in s.expiry
    decreases |scan|
  {
    if scan == [] then true
    else
      assert forall k | k in scan[1..] :: k in scan && k != scan[0];
      && (scan[0] in s.free && s.Stale(scan[0]) ==> LuaLegible(s.free))
      && GcLegible(CheckHealth(s, scan[0]), scan[1..])
  }

  /** Whenever a call pops or cuts a node, the list is legible. Calls that only append, clear or leave the list alone
      need nothing. */
  ghost predicate CallLegible(s: State, shared: bool, op: Op)
    requires s.Wf() && Enabled(s, op)
  {
    match op
    case Malloc(_, name, _) => LuaLegible(s.free) || (Honoured(s, name) && (shared || s.Bound(name).value !in s.free))
    case Shrink(keys) => LuaLegible(s.free) || forall k | k in keys :: k !in s.free
    case Assign(keys, _, _, _) =>
      LuaLegible(s.free) || keys == [] || (exists k | k in keys :: !ValidKey(k)) || forall k | k in s.free :: k in keys
    case Gc(scan) => GcLegible(s, scan)
    case _ => true
  }

  /** All along a run. */
  ghost predicate LegibleRun(s: State, shared: bool, ops: seq<Op>)
    requires s.Wf() && RunEnabled(s, shared, ops)
    decreases |ops|
  {
    ops == [] || (CallLegible(s, shared, ops[0]) && LegibleRun(Step(s, shared, ops[0]).0, shared, ops[1..]))
  }

  lemma {:induction false} PlainGc(s: State, scan: seq<string>)
    requires s.Wf() && Distinct(scan) && forall k | k in scan :: k in s.expiry
    requires forall k | k in s.expiry :: !LeadingPipe(k)
    ensures GcLegible(s, scan)
    decreases |scan|
  {
    if scan == [] {
    } else {
      assert forall k | k in scan[1..] :: k in scan && k != scan[0];
      PlainIsLegible(s.free, s.expiry.Keys);
      PlainGc(CheckHealth(s, scan[0]), scan[1..]);
    }
  }

  /** A caller's way to be sure: no key with a leading pipe is a member, and none joins. */
  lemma {:induction false} PlainRunIsLegible(s: State, shared: bool, ops: seq<Op>)
    requires s.Wf() && RunEnabled(s, shared, ops)
    requires forall k | k in s.expiry :: !LeadingPipe(k)
    requires forall i | 0 <= i < |ops| :: forall k | k in Joining(ops[i]) :: !LeadingPipe(k)
    ensures LegibleRun(s, shared, ops) && LuaLegible(Run(s, shared, ops).free)
    decreases |ops|
  {
    hide Step, Distinct, LeadingPipe, Joining, GcLegible;
    PlainIsLegible(s.free, s.expiry.Keys);
    if ops == [] {
    } else {
      MembersOfStep(s, shared, ops[0]);
      if ops[0].Gc? {
        PlainGc(s, ops[0].scan);
      }
      PlainRunIsLegible(Step(s, shared, ops[0]).0, shared, ops[1..]);
    }
  }
}
