/** Duplicate-free sequences, removal of a set of elements, first occurrences, and a little map algebra. */
module Sequences {

  ghost predicate Distinct<T>(s: seq<T>) {
    forall i, j :: 0 <= i < j < |s| ==> s[i] != s[j]
  }

  /** Around position i: the rest is duplicate-free too, and s[i] is on neither side. */
  lemma DistinctAround<T(!new)>(s: seq<T>, i: nat)
    requires Distinct(s) && i < |s|
    ensures Distinct(s[i..]) && Distinct(s[i + 1..])
    ensures s[i..] == [s[i]] + s[i + 1..]
    ensures s[i] !in s[..i] && s[i] !in s[i + 1..]
  {
  }

  function Elements<T(==)>(s: seq<T>): set<T> {
    set x | x in s
  }

  /** s lists every element of S exactly once: what HKEYS, HSCAN and pairs() may return. */
  ghost predicate Enumerates<T>(s: seq<T>, S: set<T>) {
    Distinct(s) && Elements(s) == S
  }

  /** s without the elements of D, order kept. */
  function Drop<T(==, !new)>(s: seq<T>, D: set<T>): (r: seq<T>)
    ensures forall x :: x in r <==> x in s && x !in D
  {
    if s == [] then []
    else if s[0] in D then Drop(s[1..], D)
    else [s[0]] + Drop(s[1..], D)
  }

  /** The first occurrence in s of every wanted element. */
  function Pick<T(==, !new)>(s: seq<T>, wanted: set<T>): (r: seq<T>)
    ensures forall x :: x in r <==> x in s && x in wanted
  {
    if s == [] then []
    else if s[0] in wanted then [s[0]] + Pick(s[1..], wanted - {s[0]})
    else Pick(s[1..], wanted)
  }

  lemma PickCons<T(!new)>(x: T, s: seq<T>, wanted: set<T>)
    ensures Pick([x] + s, wanted) == if x in wanted then [x] + Pick(s, wanted - {x}) else Pick(s, wanted)
  {
    assert ([x] + s)[1..] == s;
  }

  lemma {:induction false} PickDistinct<T(!new)>(s: seq<T>, wanted: set<T>)
    ensures Distinct(Pick(s, wanted))
    ensures |Pick(s, wanted)| <= |s|
  {
    if s == [] {
    } else if s[0] in wanted {
      PickDistinct(s[1..], wanted - {s[0]});
    } else {
      PickDistinct(s[1..], wanted);
    }
  }

  /** x comes in s before any y does. */
  ghost predicate ComesFirst<T>(s: seq<T>, x: T, y: T) {
    exists p :: 0 <= p < |s| && s[p] == x && y !in s[..p]
  }

  /** r lists the wanted elements of s once each, in the order they first come. */
  ghost predicate FirstOccurrences<T(!new)>(r: seq<T>, s: seq<T>, wanted: set<T>) {
    && Distinct(r)
    && (forall x :: x in r <==> x in s && x in wanted)
    && forall i, j | 0 <= i < j < |r| :: ComesFirst(s, r[i], r[j])
  }

  lemma ComesFirstBehind<T(!new)>(s: seq<T>, x: T, y: T)
    requires s != [] && y != s[0]
    ensures ComesFirst(s[1..], x, y) || x == s[0] ==> ComesFirst(s, x, y)
  {
    if x == s[0] {
      assert s[..0] == [];
    } else if ComesFirst(s[1..], x, y) {
      var p :| 0 <= p < |s[1..]| && s[1..][p] == x && y !in s[1..][..p];
      assert s[..p + 1] == [s[0]] + s[1..][..p];
      assert s[p + 1] == x;
    }
  }

  lemma {:induction false} PickIsFirst<T(!new)>(s: seq<T>, wanted: set<T>)
    ensures FirstOccurrences(Pick(s, wanted), s, wanted)
  {
    PickDistinct(s, wanted);
    if s == [] {
    } else {
      var taken := s[0] in wanted;
      var r, rest := Pick(s, wanted), Pick(s[1..], if taken then wanted - {s[0]} else wanted);
      PickIsFirst(s[1..], if taken then wanted - {s[0]} else wanted);
      forall i, j | 0 <= i < j < |r|
        ensures ComesFirst(s, r[i], r[j])
      {
        var d := if taken then 1 else 0;
        assert r[j] == rest[j - d] && rest[j - d] in rest;
        if i >= d {
          assert ComesFirst(s[1..], rest[i - d], rest[j - d]);
        }
        ComesFirstBehind(s, r[i], r[j]);
      }
    }
  }

  /** Only the wanted elements that occur in s matter. */
  lemma {:induction false} PickAgree<T(!new)>(s: seq<T>, v: set<T>, w: set<T>)
    requires forall x | x in s :: x in v <==> x in w
    ensures Pick(s, v) == Pick(s, w)
  {
    if s == [] {
    } else {
      var t := s[1..];
      assert forall x | x in t :: x in s;
      if s[0] in v {
        PickAgree(t, v - {s[0]}, w - {s[0]});
      } else {
        PickAgree(t, v, w);
      }
    }
  }

  lemma {:induction false} PickNothing<T(!new)>(s: seq<T>)
    ensures Pick(s, {}) == []
  {
    if s == [] {
    } else {
      PickNothing(s[1..]);
    }
  }

  lemma {:induction false} DropDistinct<T(!new)>(s: seq<T>, D: set<T>)
    requires Distinct(s)
    ensures Distinct(Drop(s, D))
    ensures |Drop(s, D)| <= |s|
  {
    if s == [] {
    } else {
      DropDistinct(s[1..], D);
    }
  }

  lemma {:induction false} DropNothing<T(!new)>(s: seq<T>, D: set<T>)
    requires forall x | x in s :: x !in D
    ensures Drop(s, D) == s
  {
    if s == [] {
    } else {
      assert forall x | x in s[1..] :: x in s;
      assert s[0] in s;
      DropNothing(s[1..], D);
    }
  }

  lemma {:induction false} DropConcat<T(!new)>(s: seq<T>, t: seq<T>, D: set<T>)
    ensures Drop(s + t, D) == Drop(s, D) + Drop(t, D)
  {
    if s == [] {
      assert s + t == t;
    } else {
      assert (s + t)[1..] == s[1..] + t;
      DropConcat(s[1..], t, D);
    }
  }

  lemma DropOne<T(!new)>(x: T, D: set<T>)
    requires x !in D
    ensures Drop([x], D) == [x]
  {
  }

  lemma {:induction false} DropTwice<T(!new)>(s: seq<T>, C: set<T>, D: set<T>)
    ensures Drop(Drop(s, C), D) == Drop(s, C + D)
  {
    if s == [] {
    } else {
      DropTwice(s[1..], C, D);
      if s[0] !in C {
        assert Drop(s, C)[1..] == Drop(s[1..], C);
      }
    }
  }

  /** Only the removed elements that occur in s matter. */
  lemma {:induction false} DropAgree<T(!new)>(s: seq<T>, C: set<T>, D: set<T>)
    requires forall x | x in s :: x in C <==> x in D
    ensures Drop(s, C) == Drop(s, D)
  {
    if s == [] {
    } else {
      assert s[0] in s;
      assert forall x | x in s[1..] :: x in s;
      DropAgree(s[1..], C, D);
    }
  }

  /** In a duplicate-free sequence, removing one element cuts out its only position. */
  lemma {:induction false} DropAt<T(!new)>(s: seq<T>, i: nat)
    requires Distinct(s) && i < |s|
    ensures Drop(s, {s[i]}) == s[..i] + s[i + 1..]
  {
    assert s == s[..i] + ([s[i]] + s[i + 1..]);
    DropConcat(s[..i], [s[i]] + s[i + 1..], {s[i]});
    DropNothing(s[..i], {s[i]});
    DropNothing(s[i + 1..], {s[i]});
    assert ([s[i]] + s[i + 1..])[1..] == s[i + 1..];
  }

  /** Without duplicates, picking is dropping the rest. */
  lemma {:induction false} PickIsDrop<T(!new)>(s: seq<T>, wanted: set<T>, D: set<T>)
    requires Distinct(s) && forall x | x in s :: x in wanted <==> x !in D
    ensures Pick(s, wanted) == Drop(s, D)
  {
    if s == [] {
    } else {
      DistinctAround(s, 0);
      assert s == [s[0]] + s[1..] && s[0] in s;
      assert forall x | x in s[1..] :: x in s && x != s[0];
      PickIsDrop(s[1..], if s[0] in wanted then wanted - {s[0]} else wanted, D);
    }
  }

  /** Two survivors stay in the order they had. */
  lemma {:induction false} DropKeepsOrder<T(!new)>(s: seq<T>, D: set<T>, i: nat, j: nat) returns (i': nat, j': nat)
    requires i < j < |s| && s[i] !in D && s[j] !in D
    ensures i' < j' < |Drop(s, D)| && Drop(s, D)[i'] == s[i] && Drop(s, D)[j'] == s[j]
  {
    assert s == s[..j] + s[j..];
    DropConcat(s[..j], s[j..], D);
    assert s[..j][i] == s[i];
    assert s[i] in Drop(s[..j], D);
    i' :| 0 <= i' < |Drop(s[..j], D)| && Drop(s[..j], D)[i'] == s[i];
    j' := |Drop(s[..j], D)|;
    assert s[j..][0] == s[j];
  }

  /** A finite set can be listed in some order. */
  method Enumerate<T(==)>(S: set<T>) returns (s: seq<T>)
    ensures Enumerates(s, S)
  {
    s := [];
    var todo := S;
    while todo != {}
      invariant todo <= S && Distinct(s) && Elements(s) == S - todo
      decreases todo
    {
      var x :| x in todo;
      assert Elements(s + [x]) == Elements(s) + {x};
      assert x !in Elements(s);
      s, todo := s + [x], todo - {x};
    }
  }

  lemma ElementsOfCons<T(!new)>(x: T, s: seq<T>)
    ensures Elements([x] + s) == {x} + Elements(s)
  {
  }

  lemma DistinctNothing<T(!new)>()
    ensures Distinct<T>([]) && Elements<T>([]) == {}
  {
  }

  lemma DistinctAppend<T(!new)>(s: seq<T>, x: T)
    requires Distinct(s) && x !in s
    ensures Distinct(s + [x]) && Elements(s + [x]) == Elements(s) + {x}
  {
  }

  // ---------------------------------------------------------------- sizes

  lemma {:induction false} DistinctSize<T(!new)>(s: seq<T>)
    requires Distinct(s)
    ensures |Elements(s)| == |s|
  {
    hide Distinct;
    if s == [] {
      assert Elements(s) == {};
    } else {
      var x, rest := s[0], s[1..];
      DistinctAround(s, 0);
      assert s == [x] + rest;
      ElementsOfCons(x, rest);
      DistinctSize(rest);
      assert x !in Elements(rest);
    }
  }

  lemma OneMore<T(!new)>(S: set<T>, D: set<T>, x: T)
    requires x !in S
    ensures |({x} + S) * D| == |S * D| + if x in D then 1 else 0
  {
    assert ({x} + S) * D == (S * D) + if x in D then {x} else {};
  }

  /** What a removal takes out of a duplicate-free sequence. */
  lemma {:induction false} DropSize<T(!new)>(s: seq<T>, D: set<T>)
    requires Distinct(s)
    ensures |Drop(s, D)| + |Elements(s) * D| == |s|
  {
    hide Distinct;
    if s == [] {
      assert Elements(s) * D == {};
    } else {
      var x, rest := s[0], s[1..];
      DistinctAround(s, 0);
      assert s == [x] + rest;
      ElementsOfCons(x, rest);
      DropSize(rest, D);
      assert x !in Elements(rest);
      OneMore(Elements(rest), D, x);
    }
  }

  lemma {:induction false} SubsetSize<T(!new)>(S: set<T>, U: set<T>)
    requires S <= U
    ensures |S| <= |U|
  {
    if S == {} {
    } else {
      var x :| x in S;
      SubsetSize(S - {x}, U - {x});
    }
  }

  lemma {:induction false} ElementsSize<T(!new)>(s: seq<T>)
    ensures |Elements(s)| <= |s|
  {
    if s == [] {
      assert Elements(s) == {};
    } else {
      ElementsSize(s[1..]);
      assert s == [s[0]] + s[1..];
      ElementsOfCons(s[0], s[1..]);
    }
  }

  // ---------------------------------------------------------------- maps

  function AllAt<K(==), V>(keys: seq<K>, v: V): map<K, V> {
    map k | k in keys :: v
  }

  lemma AllAtCons<K(!new), V>(m: map<K, V>, k: K, keys: seq<K>, v: V)
    ensures m[k := v] + AllAt(keys, v) == m + AllAt([k] + keys, v)
    ensures m + AllAt([], v) == m
  {
  }

  lemma RemoveTwice<K(!new), V>(m: map<K, V>, C: set<K>, D: set<K>)
    ensures m - C - D == m - (C + D)
    ensures m - {} == m
  {
  }

  /** Only the removed keys that occur in m matter. */
  lemma RemoveAgree<K(!new), V>(m: map<K, V>, C: set<K>, D: set<K>)
    requires forall k | k in m :: k in C <==> k in D
    ensures m - C == m - D
  {
  }
}
