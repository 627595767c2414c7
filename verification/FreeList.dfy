/** The doubly-linked free list threaded through the pool hash. */
module FreeList {
  import opened Sequences
  import opened PoolEncoding

  type Hash = map<string, Entry>

  function Marker(e: int): Entry {
    Entry(ALLOCATED, ALLOCATED, e)
  }

  /** The i-th key, or the empty pointer past either end. */
  function At(fl: seq<string>, i: int): string {
    if 0 <= i < |fl| then fl[i] else ""
  }

  predicate IsMarker(e: Entry) {
    e.prev == ALLOCATED && e.next == ALLOCATED
  }

  /** The i-th key is in the hash, between its neighbours. */
  ghost predicate NodeAt(m: Hash, fl: seq<string>, i: int) {
    0 <= i < |fl| && fl[i] in m && m[fl[i]].prev == At(fl, i - 1) && m[fl[i]].next == At(fl, i + 1)
  }

  /** Head, tail and all prev/next pointers spell out fl in both directions, without repetition,
      and every other entry carries both allocated marks. */
  ghost predicate Linked(m: Hash, head: string, tail: string, fl: seq<string>) {
    && Distinct(fl)
    && (forall k | k in fl :: k in m)
    && (forall i :: 0 <= i < |fl| ==> NodeAt(m, fl, i))
    && head == At(fl, 0)
    && tail == At(fl, |fl| - 1)
    && (forall k | k in m && k !in fl :: IsMarker(m[k]))
  }

  ghost predicate Named(m: Hash) {
    forall k | k in m :: k != "" && k != ALLOCATED
  }

  /** No node has the empty name, and one named like the mark has no neighbours. */
  ghost predicate Proper(fl: seq<string>) {
    "" !in fl && (ALLOCATED in fl ==> |fl| == 1)
  }

  lemma NamedIsProper(m: Hash, head: string, tail: string, fl: seq<string>)
    requires Named(m) && Linked(m, head, tail, fl)
    ensures Proper(fl)
  {
  }

  /** One pool state spells out at most one list. */
  lemma LinkedUnique(m: Hash, head: string, t: string, u: string, fl: seq<string>, gl: seq<string>)
    requires Named(m) && Linked(m, head, t, fl) && Linked(m, head, u, gl)
    ensures fl == gl
  {
    LinkedPrefix(m, m, head, t, u, fl, gl, |fl|);
    LinkedPrefix(m, m, head, u, t, gl, fl, |gl|);
  }

  /** Two hashes with the same head lead along the same keys for as long as their `next` fields agree. */
  lemma {:induction false} LinkedPrefix(m: Hash, m': Hash, head: string, t: string, u: string, fl: seq<string>,
                                        gl: seq<string>, n: nat)
    requires Named(m) && Linked(m, head, t, fl) && Linked(m', head, u, gl) && n <= |fl|
    requires forall j | 0 <= j < n - 1 :: fl[j] in m' && m'[fl[j]].next == m[fl[j]].next
    ensures n <= |gl| && gl[..n] == fl[..n]
  {
    if n == 0 {
    } else {
      LinkedPrefix(m, m', head, t, u, fl, gl, n - 1);
      assert fl[n - 1] in m;
      if n > 1 {
        assert fl[n - 2] == fl[..n - 1][n - 2] == gl[..n - 1][n - 2] == gl[n - 2];
        assert NodeAt(m, fl, n - 2) && NodeAt(m', gl, n - 2);
      }
      assert At(gl, n - 1) == fl[n - 1];
      assert gl[..n] == gl[..n - 1] + [gl[n - 1]];
      assert fl[..n] == fl[..n - 1] + [fl[n - 1]];
    }
  }

  /** Appending a key that is not on the list. */
  function Appended(m: Hash, tail: string, k: string, expiry: int): (r: Hash)
    requires tail == "" || tail in m
  {
    var m1 := m[k := Entry(tail, "", expiry)];
    if tail == "" then m1 else m1[tail := m1[tail].(next := k)]
  }

  lemma AppendKeepsLinked(m: Hash, head: string, tail: string, fl: seq<string>, k: string, expiry: int)
    requires Named(m) && Linked(m, head, tail, fl) && k != "" && k !in fl
    ensures Linked(Appended(m, tail, k, expiry), if fl == [] then k else head, k, fl + [k])
  {
    var m', fl' := Appended(m, tail, k, expiry), fl + [k];
    forall i | 0 <= i < |fl'|
      ensures NodeAt(m', fl', i)
    {
      if i < |fl| {
        assert NodeAt(m, fl, i);
      }
    }
  }

  /** x holds the expiry of every entry. */
  ghost predicate ExpiriesOf(m: Hash, x: map<string, int>) {
    m.Keys == x.Keys && forall k {:trigger x[k]} | k in x :: x[k] == m[k].expiry
  }

  lemma ExpiryOfEntry(m: Hash, x: map<string, int>, k: string)
    requires ExpiriesOf(m, x) && k in m
    ensures k in x && x[k] == m[k].expiry
  {
  }

  lemma AppendedExpiries(m: Hash, x: map<string, int>, tail: string, k: string, expiry: int)
    requires ExpiriesOf(m, x) && (tail == "" || (tail in m && tail != k))
    ensures ExpiriesOf(Appended(m, tail, k, expiry), x[k := expiry])
  {
  }

  /** Taking one node out of the list, wherever it stands, and marking it allocated. */
  function Unlinked(m: Hash, k: string): (r: Hash)
    requires k in m
    requires m[k].prev == "" || m[k].prev in m
    requires m[k].next == "" || m[k].next in m
  {
    Stitched(m, m[k].prev, m[k].next)[k := Marker(m[k].expiry)]
  }

  /** Two neighbours made to point at each other. */
  function Stitched(m: Hash, p: string, n: string): (r: Hash)
    requires (p == "" || p in m) && (n == "" || n in m)
  {
    var m1 := if p == "" then m else m[p := m[p].(next := n)];
    if n == "" then m1 else m1[n := m1[n].(prev := p)]
  }

  /** Deleting the node first makes no difference once it is written again. */
  lemma StitchAroundDeleted(m: Hash, k: string, e: Entry, p: string, n: string)
    requires (p == "" || p in m) && (n == "" || n in m) && p != k && n != k
    ensures Stitched(m - {k}, p, n)[k := e] == Stitched(m, p, n)[k := e]
    ensures Stitched(m - {k}, p, n) == Stitched(m, p, n)[k := e] - {k}
  {
  }

  lemma StitchAroundWritten(m: Hash, k: string, e: Entry, p: string, n: string)
    requires (p == "" || p in m) && (n == "" || n in m) && p != k && n != k
    ensures Stitched(m[k := e], p, n) == Stitched(m, p, n)[k := e]
  {
  }

  lemma UnlinkedExpiries(m: Hash, x: map<string, int>, k: string)
    requires ExpiriesOf(m, x) && k in m
    requires m[k].prev == "" || m[k].prev in m
    requires m[k].next == "" || m[k].next in m
    ensures ExpiriesOf(Unlinked(m, k), x)
  {
  }

  lemma NeighboursInHash(m: Hash, head: string, tail: string, fl: seq<string>, i: nat)
    requires (Named(m) || Proper(fl)) && Linked(m, head, tail, fl) && i < |fl|
    ensures m[fl[i]].prev == At(fl, i - 1) && (i > 0 ==> fl[i - 1] in m && fl[i - 1] != "")
    ensures m[fl[i]].next == At(fl, i + 1) && (i + 1 < |fl| ==> fl[i + 1] in m && fl[i + 1] != "")
    ensures fl[i] !in fl[..i] && fl[i] !in fl[i + 1..]
    ensures fl[i] in m && fl[i] != "" && !IsMarker(m[fl[i]]) && m[fl[i]].prev != ALLOCATED && m[fl[i]].next != ALLOCATED
  {
    if Named(m) {
      NamedIsProper(m, head, tail, fl);
    }
    assert NodeAt(m, fl, i);
    assert fl[i] in fl && (i > 0 ==> fl[i - 1] in fl) && (i + 1 < |fl| ==> fl[i + 1] in fl);
  }

  lemma UnlinkedNode(m: Hash, head: string, tail: string, fl: seq<string>, i: nat, o: nat)
    requires Named(m) && Linked(m, head, tail, fl) && i < |fl| && o < |fl| && o != i
    requires (m[fl[i]].prev == "" || m[fl[i]].prev in m) && (m[fl[i]].next == "" || m[fl[i]].next in m)
    ensures NodeAt(Unlinked(m, fl[i]), fl[..i] + fl[i + 1..], if o < i then o else o - 1)
  {
    hide Linked, Named, Proper, Distinct;
    NeighboursInHash(m, head, tail, fl, i);
    NeighboursInHash(m, head, tail, fl, o);
    var fl', j := fl[..i] + fl[i + 1..], if o < i then o else o - 1;
    assert fl'[j] == fl[o];
    assert At(fl', j - 1) == if o == i + 1 then At(fl, i - 1) else At(fl, o - 1);
    assert At(fl', j + 1) == if o == i - 1 then At(fl, i + 1) else At(fl, o + 1);
  }

  lemma UnlinkedOthers(m: Hash, head: string, tail: string, fl: seq<string>, i: nat)
    requires Named(m) && Linked(m, head, tail, fl) && i < |fl|
    requires (m[fl[i]].prev == "" || m[fl[i]].prev in m) && (m[fl[i]].next == "" || m[fl[i]].next in m)
    ensures var m', fl' := Unlinked(m, fl[i]), fl[..i] + fl[i + 1..];
            && Distinct(fl') && (forall k | k in fl' :: k in m')
            && (forall k | k in m' && k !in fl' :: IsMarker(m'[k]))
  {
    NeighboursInHash(m, head, tail, fl, i);
    var k, fl' := fl[i], fl[..i] + fl[i + 1..];
    DropAt(fl, i);
    DropDistinct(fl, {k});
    assert forall x :: x in fl' <==> x in fl && x != k;
    assert At(fl, i - 1) != "" ==> At(fl, i - 1) in fl';
    assert At(fl, i + 1) != "" ==> At(fl, i + 1) in fl';
  }

  lemma UnlinkedNodes(m: Hash, head: string, tail: string, fl: seq<string>, i: nat, m': Hash, fl': seq<string>)
    requires Named(m) && Linked(m, head, tail, fl) && i < |fl|
    requires (m[fl[i]].prev == "" || m[fl[i]].prev in m) && (m[fl[i]].next == "" || m[fl[i]].next in m)
    requires m' == Unlinked(m, fl[i]) && fl' == fl[..i] + fl[i + 1..]
    ensures forall j :: 0 <= j < |fl'| ==> NodeAt(m', fl', j)
  {
    forall j | 0 <= j < |fl'|
      ensures NodeAt(m', fl', j)
    {
      UnlinkedNode(m, head, tail, fl, i, if j < i then j else j + 1);
    }
  }

  lemma EndsAfterUnlink(m: Hash, head: string, tail: string, fl: seq<string>, i: nat, fl': seq<string>)
    requires Named(m) && Linked(m, head, tail, fl) && i < |fl| && fl' == fl[..i] + fl[i + 1..]
    ensures At(fl', 0) == if m[fl[i]].prev == "" then m[fl[i]].next else head
    ensures At(fl', |fl'| - 1) == if m[fl[i]].next == "" then m[fl[i]].prev else tail
  {
    NeighboursInHash(m, head, tail, fl, i);
  }

  lemma UnlinkKeepsLinked(m: Hash, head: string, tail: string, fl: seq<string>, i: nat)
    requires Named(m) && Linked(m, head, tail, fl) && i < |fl|
    ensures (m[fl[i]].prev == "" || m[fl[i]].prev in m) && (m[fl[i]].next == "" || m[fl[i]].next in m)
    ensures Linked(Unlinked(m, fl[i]),
                   if m[fl[i]].prev == "" then m[fl[i]].next else head,
                   if m[fl[i]].next == "" then m[fl[i]].prev else tail,
                   fl[..i] + fl[i + 1..])
  {
    NeighboursInHash(m, head, tail, fl, i);
    var m', fl' := Unlinked(m, fl[i]), fl[..i] + fl[i + 1..];
    UnlinkedNodes(m, head, tail, fl, i, m', fl');
    UnlinkedOthers(m, head, tail, fl, i);
    EndsAfterUnlink(m, head, tail, fl, i, fl');
  }

  lemma OnListOrMarker(m: Hash, head: string, tail: string, fl: seq<string>, k: string)
    requires (Named(m) || Proper(fl)) && Linked(m, head, tail, fl) && k in m
    ensures k in fl <==> m[k].prev != ALLOCATED
    ensures k in fl <==> !IsMarker(m[k])
  {
    if k in fl {
      var i :| 0 <= i < |fl| && fl[i] == k;
      NeighboursInHash(m, head, tail, fl, i);
    }
  }

  lemma NodeIsUnlinkable(m: Hash, head: string, tail: string, fl: seq<string>, k: string)
    requires Named(m) && Linked(m, head, tail, fl) && k in fl
    ensures k in m && m[k].prev != k && m[k].next != k && m[k].next != ALLOCATED
    ensures (m[k].prev == "" || m[k].prev in m) && (m[k].next == "" || m[k].next in m)
    ensures Linked(Unlinked(m, k),
                   if m[k].prev == "" then m[k].next else head,
                   if m[k].next == "" then m[k].prev else tail,
                   Drop(fl, {k}))
  {
    var i :| 0 <= i < |fl| && fl[i] == k;
    NeighboursInHash(m, head, tail, fl, i);
    UnlinkKeepsLinked(m, head, tail, fl, i);
    DropAt(fl, i);
  }

  lemma HeadShape(m: Hash, head: string, tail: string, fl: seq<string>)
    requires Named(m) && Linked(m, head, tail, fl) && fl != []
    ensures head == fl[0] && head in m && m[head].prev == "" && m[head].next != head
    ensures m[head].next == "" || m[head].next in m
  {
    NodeIsUnlinkable(m, head, tail, fl, fl[0]);
    NeighboursInHash(m, head, tail, fl, 0);
  }

  /** The head's successor is promoted, then the head's entry is marked. */
  lemma HeadTaken(m: Hash, x: map<string, int>, head: string, tail: string, fl: seq<string>)
    requires Named(m) && Linked(m, head, tail, fl) && ExpiriesOf(m, x) && fl != []
    ensures head == fl[0] && head in m && (m[head].next == "" || m[head].next in m)
    ensures var n := m[head].next;
            var m' := Stitched(m, "", n)[head := Marker(m[head].expiry)];
            Linked(m', n, if n == "" then "" else tail, fl[1..]) && ExpiriesOf(m', x)
  {
    HeadShape(m, head, tail, fl);
    assert Drop(fl, {head}) == fl[1..] by {
      DropAt(fl, 0);
      assert fl[..0] + fl[1..] == fl[1..];
    }
    assert Unlinked(m, head) == Stitched(m, "", m[head].next)[head := Marker(m[head].expiry)];
    NodeIsUnlinkable(m, head, tail, fl, head);
    UnlinkedExpiries(m, x, head);
  }

  /** The same, with the mark written first. */
  lemma HeadMarked(m: Hash, x: map<string, int>, head: string, tail: string, fl: seq<string>)
    requires Named(m) && Linked(m, head, tail, fl) && ExpiriesOf(m, x) && fl != []
    ensures head == fl[0] && head in m && (m[head].next == "" || m[head].next in m)
    ensures var n := m[head].next;
            var m' := Stitched(m[head := Marker(m[head].expiry)], "", n);
            Linked(m', n, if n == "" then "" else tail, fl[1..]) && ExpiriesOf(m', x)
  {
    HeadShape(m, head, tail, fl);
    HeadTaken(m, x, head, tail, fl);
    StitchAroundWritten(m, head, Marker(m[head].expiry), "", m[head].next);
  }

  /** The head's entry is deleted. */
  lemma HeadDeleted(m: Hash, x: map<string, int>, head: string, tail: string, fl: seq<string>)
    requires Named(m) && Linked(m, head, tail, fl) && ExpiriesOf(m, x) && fl != []
    ensures head == fl[0] && head in m && m[head].next != head && (m[head].next == "" || m[head].next in m)
    ensures var n := m[head].next;
            var m' := Stitched(m - {head}, "", n);
            Linked(m', n, if n == "" then "" else tail, fl[1..]) && ExpiriesOf(m', x - {head})
  {
    HeadShape(m, head, tail, fl);
    HeadTaken(m, x, head, tail, fl);
    var n := m[head].next;
    var m' := Stitched(m, "", n)[head := Marker(m[head].expiry)];
    StitchAroundDeleted(m, head, Marker(m[head].expiry), "", n);
    ForgetMarker(m', n, if n == "" then "" else tail, fl[1..], head);
  }

  lemma ForgetMarker(m: Hash, head: string, tail: string, fl: seq<string>, k: string)
    requires Linked(m, head, tail, fl) && k !in fl
    ensures Linked(m - {k}, head, tail, fl)
  {
    var m' := m - {k};
    forall i | 0 <= i < |fl|
      ensures NodeAt(m', fl, i)
    {
      assert NodeAt(m, fl, i);
    }
  }

  lemma ExpiryIsNotStructure(m: Hash, x: map<string, int>, head: string, tail: string, fl: seq<string>, k: string,
                             expiry: int)
    requires Linked(m, head, tail, fl) && ExpiriesOf(m, x) && k in m
    ensures Linked(m[k := m[k].(expiry := expiry)], head, tail, fl)
    ensures ExpiriesOf(m[k := m[k].(expiry := expiry)], x[k := expiry])
  {
    var m' := m[k := m[k].(expiry := expiry)];
    forall i | 0 <= i < |fl|
      ensures NodeAt(m', fl, i)
    {
      assert NodeAt(m, fl, i);
    }
  }

  /** What the entry test of push_to_tail sees: it lets a listed node through only when that node is the whole list. */
  lemma OnlyNodeLooksFree(m: Hash, head: string, tail: string, fl: seq<string>, k: string)
    requires Named(m) && Linked(m, head, tail, fl) && k in m
    ensures m[k].prev in {ALLOCATED, ""} && m[k].next in {ALLOCATED, ""} <==> k !in fl || fl == [k]
  {
    if k in fl {
      var i :| 0 <= i < |fl| && fl[i] == k;
      NeighboursInHash(m, head, tail, fl, i);
      assert m[k].prev == "" <==> i == 0;
      assert m[k].next == "" <==> i == |fl| - 1;
    }
  }

  lemma EndsOfList(m: Hash, head: string, tail: string, fl: seq<string>)
    requires (Named(m) || Proper(fl)) && Linked(m, head, tail, fl)
    ensures head == "" <==> fl == []
    ensures tail == "" <==> fl == []
    ensures fl != [] ==> head == fl[0] && head in m && m[head].prev == ""
    ensures fl != [] ==> tail == fl[|fl| - 1] && tail in fl && tail in m && m[tail].next == ""
  {
    if fl != [] {
      NeighboursInHash(m, head, tail, fl, 0);
      NeighboursInHash(m, head, tail, fl, |fl| - 1);
    }
  }

  lemma ListFitsInPool(m: Hash, head: string, tail: string, fl: seq<string>)
    requires Linked(m, head, tail, fl)
    ensures |fl| <= |m|
  {
    DistinctSize(fl);
    SubsetSize(Elements(fl), m.Keys);
  }
}
