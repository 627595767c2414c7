/** The strings kept in the pool hash: "prev||next||expiry", and the two parsers that read them. */
module PoolEncoding {
  import opened Wrappers

  /** One parsed pool entry. */
  datatype Entry = Entry(prev: string, next: string, expiry: int)

  const ALLOCATED := "#ALLOCATED"
  const SEP := "||"

  predicate SepAt(s: string, i: int) {
    0 <= i && i + 2 <= |s| && s[i] == '|' && s[i + 1] == '|'
  }

  predicate HasSep(s: string) {
    exists i | 0 <= i < |s| :: SepAt(s, i)
  }

  predicate LeadingPipe(s: string) {
    s != "" && s[0] == '|'
  }

  predicate TrailingPipe(s: string) {
    s != "" && s[|s| - 1] == '|'
  }

  /** What `_validate_keys` lets through. */
  predicate ValidKey(k: string) {
    k != "" && !HasSep(k) && k != ALLOCATED && '\0' !in k
  }

  /** The rules, character by character: not empty, not the reserved word, no two pipes in a row, no NUL. */
  lemma ValidKeyMeans(k: string)
    ensures ValidKey(k) <==>
              && k != "" && k != "#ALLOCATED"
              && (forall i, j | 0 <= i && j == i + 1 < |k| :: !(k[i] == '|' && k[j] == '|'))
              && (forall c | c in k :: c as int != 0)
  {
    forall i, j | 0 <= i && j == i + 1 < |k|
      ensures SepAt(k, i) <==> k[i] == '|' && k[j] == '|'
    {
    }
    if HasSep(k) {
      var i :| 0 <= i < |k| && SepAt(k, i);
      assert k[i] == '|' && k[i + 1] == '|';
    }
  }

  /** What the scripts store in a `prev` or `next` field: nothing, the allocated mark, or a valid key. */
  predicate Pointer(x: string) {
    x == "" || x == ALLOCATED || ValidKey(x)
  }

  predicate ReadablePointer(x: string) {
    Pointer(x) && !LeadingPipe(x)
  }

  lemma MarkHasNoPipe()
    ensures '|' !in ALLOCATED && !HasSep(ALLOCATED) && !LeadingPipe(ALLOCATED)
  {
    assert forall i | 0 <= i < |ALLOCATED| :: ALLOCATED[i] != '|';
  }

  lemma PointerHasNoSep(x: string)
    requires Pointer(x)
    ensures !HasSep(x)
  {
    MarkHasNoPipe();
  }

  // ---------------------------------------------------------------- decimal numbers

  function Digit(d: nat): char
    requires d < 10
  {
    "0123456789"[d]
  }

  function DigitValue(c: char): (r: Option<nat>)
    ensures forall d: nat | d < 10 :: c == Digit(d) ==> r == Some(d)
  {
    if '0' <= c <= '9' then Some(c as int - '0' as int) else None
  }

  function ShowNat(n: nat): (s: string)
    ensures s != "" && '|' !in s && s[0] != '-'
  {
    if n < 10 then [Digit(n)] else ShowNat(n / 10) + [Digit(n % 10)]
  }

  function ShowInt(i: int): (s: string)
    ensures s != "" && '|' !in s
  {
    if i < 0 then "-" + ShowNat(-i) else ShowNat(i)
  }

  function ParseNat(s: string): Option<nat> {
    if s == "" then None
    else
      var last := DigitValue(s[|s| - 1]);
      if last.None? then None
      else if |s| == 1 then last
      else
        var rest := ParseNat(s[..|s| - 1]);
        if rest.None? then None else Some(10 * rest.value + last.value)
  }

  function ParseInt(s: string): Option<int> {
    if s != "" && s[0] == '-' then
      match ParseNat(s[1..])
      case None => None
      case Some(n) => Some(-(n as int))
    else
      ParseNat(s)
  }

  lemma {:induction false} ParseShowNat(n: nat)
    ensures ParseNat(ShowNat(n)) == Some(n)
  {
    if n < 10 {
    } else {
      ParseShowNat(n / 10);
      var s := ShowNat(n);
      assert s[..|s| - 1] == ShowNat(n / 10);
      assert DigitValue(s[|s| - 1]) == Some(n % 10);
    }
  }

  lemma ParseShowInt(i: int)
    ensures ParseInt(ShowInt(i)) == Some(i)
  {
    hide ShowNat, ParseNat;
    if i < 0 {
      var d := ShowNat(-i);
      ParseShowNat(-i);
      assert ("-" + d)[1..] == d;
    } else {
      ParseShowNat(i);
    }
  }

  lemma HasDigitValue(c: char)
    ensures DigitValue(c).Some? <==> '0' <= c <= '9'
  {
  }

  lemma {:induction false} ParsesDigits(s: string)
    ensures ParseNat(s).Some? <==> s != "" && forall i | 0 <= i < |s| :: '0' <= s[i] <= '9'
  {
    hide DigitValue;
    if s == "" {
    } else {
      HasDigitValue(s[|s| - 1]);
      ParsesDigits(s[..|s| - 1]);
    }
  }

  /** Only decimal digits behind an optional minus sign make a number; anything else is no expiry. */
  lemma NoNumberNoExpiry(s: string)
    ensures var d := if s != "" && s[0] == '-' then s[1..] else s;
            if d != "" && forall i | 0 <= i < |d| :: '0' <= d[i] <= '9' then ParseInt(s).Some? else ExpiryOf(s) == -1
  {
    ParsesDigits(s);
    if s != "" {
      ParsesDigits(s[1..]);
    }
  }

  /** An expiry that is no number counts as -1 to both readers. */
  function ExpiryOf(s: string): int {
    match ParseInt(s)
    case Some(i) => i
    case None => -1
  }

  // ---------------------------------------------------------------- separators

  function LastSep(s: string): (r: int)
    ensures -1 <= r && (r >= 0 ==> SepAt(s, r))
    ensures forall i | i > r :: !SepAt(s, i)
  {
    if |s| < 2 then -1
    else if SepAt(s, |s| - 2) then |s| - 2
    else
      var t := s[..|s| - 1];
      assert forall i | SepAt(s, i) :: i == |s| - 2 || SepAt(t, i);
      LastSep(t)
  }

  function FirstSep(s: string): (r: int)
    ensures -1 <= r && (r >= 0 ==> SepAt(s, r))
    ensures forall i | SepAt(s, i) :: 0 <= r <= i
  {
    if |s| < 2 then -1
    else if SepAt(s, 0) then 0
    else
      var r := FirstSep(s[1..]);
      assert forall i | SepAt(s, i) :: SepAt(s[1..], i - 1);
      if r < 0 then -1 else r + 1
  }

  // ---------------------------------------------------------------- join and the two splits

  function Join(e: Entry): (s: string)
    ensures s != ""
  {
    e.prev + SEP + e.next + SEP + ShowInt(e.expiry)
  }

  /** The Lua match "(.*)||(.*)||(.*)": both separators as far right as they can be. */
  function LuaSplit(s: string): Option<Entry> {
    if s == "" then Some(Entry("", "", -1))
    else
      var j := LastSep(s);
      if j < 0 then None
      else
        var i := LastSep(s[..j]);
        if i < 0 then None
        else Some(Entry(s[..i], s[i + 2..j], ExpiryOf(s[j + 2..])))
  }

  /** The diagnostics parser: rpartition, then partition. */
  function PySplit(s: string): Entry {
    var j := LastSep(s);
    var rest := if j < 0 then "" else s[..j];
    var number := if j < 0 then s else s[j + 2..];
    var i := FirstSep(rest);
    if i < 0 then Entry(rest, "", ExpiryOf(number))
    else Entry(rest[..i], rest[i + 2..], ExpiryOf(number))
  }

  /** Leftmost-longest: LuaSplit takes the longest first capture for which the rest still matches,
      and after that the longest second one. */
  lemma LuaSplitIsGreedy(s: string, i: nat, j: nat)
    requires SepAt(s, i) && SepAt(s, j) && i + 2 <= j
    ensures LuaSplit(s).Some?
    ensures i <= |LuaSplit(s).value.prev|
    ensures i == |LuaSplit(s).value.prev| ==> j <= i + 2 + |LuaSplit(s).value.next|
  {
    var j' := LastSep(s);
    assert j <= j';
    assert SepAt(s[..j'], i);
  }

  /** It reads any text with two separators that do not overlap, an empty one as a free entry, and no other. */
  lemma LuaSplitMatches(s: string)
    ensures LuaSplit(s).Some? <==> s == "" || exists i, j :: SepAt(s, i) && SepAt(s, j) && i + 2 <= j
  {
    if s != "" && LuaSplit(s).Some? {
      var j := LastSep(s);
      var i := LastSep(s[..j]);
      assert SepAt(s, i) && SepAt(s, j);
    }
    if exists i, j :: SepAt(s, i) && SepAt(s, j) && i + 2 <= j {
      var i, j :| SepAt(s, i) && SepAt(s, j) && i + 2 <= j;
      LuaSplitIsGreedy(s, i, j);
    }
  }

  lemma JoinedSeps(e: Entry)
    ensures LastSep(Join(e)) == |e.prev| + 2 + |e.next|
    ensures Join(e)[..LastSep(Join(e))] == e.prev + SEP + e.next
    ensures ExpiryOf(Join(e)[LastSep(Join(e)) + 2..]) == e.expiry
  {
    var s, j, d := Join(e), |e.prev| + 2 + |e.next|, ShowInt(e.expiry);
    assert s == (e.prev + SEP + e.next) + SEP + d;
    assert SepAt(s, j);
    assert s[..j] == e.prev + SEP + e.next;
    assert s[j + 2..] == d;
    ParseShowInt(e.expiry);
  }

  /** How the scripts see an entry: a pipe at the front of `next` slips to the end of `prev`. */
  function LuaSeen(e: Entry): Entry {
    if LeadingPipe(e.next) then Entry(e.prev + "|", e.next[1..], e.expiry) else e
  }

  /** How the diagnostics see it: a pipe at the end of `prev` slips to the front of `next`. */
  function PySeen(e: Entry): Entry {
    if TrailingPipe(e.prev) then Entry(e.prev[..|e.prev| - 1], "|" + e.next, e.expiry) else e
  }

  lemma LuaReads(e: Entry)
    requires !HasSep(e.prev) && !HasSep(e.next)
    ensures LuaSplit(Join(e)) == Some(LuaSeen(e))
  {
    hide Join, ShowInt, ParseInt, ExpiryOf, LastSep, FirstSep;
    JoinedSeps(e);
    var s, rest := Join(e), e.prev + SEP + e.next;
    var i := |e.prev| + if LeadingPipe(e.next) then 1 else 0;
    assert SepAt(rest, i);
    forall j | j > i
      ensures !SepAt(rest, j)
    {
      assert j >= |e.prev| + 2 ==> (SepAt(rest, j) <==> SepAt(e.next, j - |e.prev| - 2));
    }
    assert LastSep(rest) == i;
    assert s[..i] == LuaSeen(e).prev && s[i + 2..LastSep(s)] == LuaSeen(e).next;
  }

  lemma PyReads(e: Entry)
    requires !HasSep(e.prev) && !HasSep(e.next)
    ensures PySplit(Join(e)) == PySeen(e)
  {
    hide Join, ShowInt, ParseInt, ExpiryOf, LastSep, FirstSep;
    JoinedSeps(e);
    var rest := e.prev + SEP + e.next;
    var i := |e.prev| - if TrailingPipe(e.prev) then 1 else 0;
    assert SepAt(rest, i);
    forall j
      ensures SepAt(rest, j) ==> i <= j
    {
      assert j + 2 <= |e.prev| ==> (SepAt(rest, j) <==> SepAt(e.prev, j));
    }
    assert FirstSep(rest) == i;
    assert rest[..i] == PySeen(e).prev && rest[i + 2..] == PySeen(e).next;
  }

  /** Lua reads back what it wrote exactly when `next` has no leading pipe. */
  lemma LuaRoundTrip(e: Entry)
    requires !HasSep(e.prev) && !HasSep(e.next)
    ensures LuaSplit(Join(e)) == Some(e) <==> !LeadingPipe(e.next)
  {
    LuaReads(e);
    assert LeadingPipe(e.next) ==> |LuaSeen(e).prev| == |e.prev| + 1;
  }

  /** The diagnostics parser reads it back exactly when `prev` has no trailing pipe. */
  lemma PyRoundTrip(e: Entry)
    requires !HasSep(e.prev) && !HasSep(e.next)
    ensures PySplit(Join(e)) == e <==> !TrailingPipe(e.prev)
  {
    PyReads(e);
    assert TrailingPipe(e.prev) ==> |PySeen(e).prev| == |e.prev| - 1;
  }

  /** The two readers agree exactly on the entries with no pipe on the inner edges. */
  lemma ReadersAgree(e: Entry)
    requires !HasSep(e.prev) && !HasSep(e.next)
    ensures LuaSplit(Join(e)) == Some(PySplit(Join(e))) <==> !LeadingPipe(e.next) && !TrailingPipe(e.prev)
  {
    LuaReads(e);
    PyReads(e);
    assert LeadingPipe(e.next) ==> |LuaSeen(e).prev| > |PySeen(e).prev|;
    assert TrailingPipe(e.prev) ==> |LuaSeen(e).prev| > |PySeen(e).prev|;
  }

  /** Writing a misread entry back with another expiry leaves the string a correct reading would have left. */
  lemma RewriteHeals(e: Entry, expiry: int)
    ensures Join(LuaSeen(e).(expiry := expiry)) == Join(e.(expiry := expiry))
  {
    if LeadingPipe(e.next) {
      assert e.next == "|" + e.next[1..];
      assert e.prev + "|" + SEP + e.next[1..] == e.prev + SEP + e.next;
    }
  }

  /** Whatever is in the fields, a `prev` that is neither empty nor the mark is read back as one. */
  lemma PrevSurvives(e: Entry)
    ensures LuaSplit(Join(e)).Some?
    ensures e.prev != "" && e.prev != ALLOCATED ==>
              LuaSplit(Join(e)).value.prev != "" && LuaSplit(Join(e)).value.prev != ALLOCATED
  {
    var s, i, j := Join(e), |e.prev|, |e.prev| + 2 + |e.next|;
    assert SepAt(s, i) && SepAt(s, j);
    LuaSplitIsGreedy(s, i, j);
    var p := LuaSplit(s).value.prev;
    assert p == s[..|p|];
    if |p| > i {
      assert p[i] == '|';
      MarkHasNoPipe();
    } else {
      assert p == e.prev;
    }
  }
}
