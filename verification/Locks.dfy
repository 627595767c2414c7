/** The in-memory lock against the Redis lock it stands in for, and the drift that epsilon comparisons allow. */
module Locks {
  import opened Wrappers

  /** What the in-memory lock stores: a text, or a number and the text str() makes of it. */
  datatype Value = Text(s: string) | Num(x: real, shown: string)

  /** What both locks are set up with. `far` is the number of seconds that stands for no timeout in memory, `read` what
      float() and tonumber() make of a text, and `lua` the text the server stores for a number. */
  datatype Setting = Setting(eps: real, far: real, read: string -> Option<real>, lua: real -> string)

  function Shown(v: Value): string {
    match v
    case Text(s) => s
    case Num(_, shown) => shown
  }

  function NumberOf(v: Value, c: Setting): Option<real> {
    match v
    case Text(s) => c.read(s)
    case Num(x, _) => Some(x)
  }

  datatype Cmp = Gt | Lt | Ge | Le | Eq | Ne

  function Abs(x: real): real {
    if x < 0.0 then -x else x
  }

  /** The comparison both implementations make: strict ones are exact, the others allow eps. */
  predicate Compare(cmp: Cmp, compared: real, current: real, eps: real) {
    match cmp
    case Gt => compared > current
    case Lt => compared < current
    case Ge => compared >= current - eps
    case Le => compared <= current + eps
    case Eq => Abs(compared - current) < eps
    case Ne => Abs(compared - current) > eps
  }

  /** How the six comparisons fit together: within eps both inclusive ones hold, beyond it `!=` does, and at a
      distance of exactly eps neither `==` nor `!=` does. */
  lemma CompareLaws(x: real, y: real, eps: real)
    requires eps >= 0.0
    ensures Compare(Gt, x, y, eps) <==> Compare(Lt, y, x, eps)
    ensures Compare(Ge, x, y, eps) <==> Compare(Le, y, x, eps)
    ensures Compare(Gt, x, y, eps) ==> Compare(Ge, x, y, eps)
    ensures !Compare(Ge, x, y, eps) ==> Compare(Lt, x, y, eps)
    ensures Compare(Ne, x, y, eps) <==> !(Compare(Ge, x, y, eps) && Compare(Le, x, y, eps))
    ensures !Compare(Eq, x, y, eps) && !Compare(Ne, x, y, eps) <==> Abs(x - y) == eps
  {
  }

  datatype Reply = Unit | Answer(yes: bool) | Held(value: Option<string>) | Error

  datatype Action = Put(value: real, shown: string, ex: Option<int>) | Delete

  // ---------------------------------------------------------------- ThreadLock

  datatype LockData = LockData(value: Value, expiry: real)

  type Table = map<string, LockData>

  predicate TLive(t: Table, k: string, now: real) {
    k in t && t[k].expiry > now
  }

  /** Reading a missing key of the defaultdict stores an expired default. */
  function Touched(t: Table, k: string): Table {
    if k in t then t else t[k := LockData(Text("1"), 0.0)]
  }

  /** The default makes no difference once the key is written or deleted. */
  lemma TouchedAndGone(t: Table, k: string, d: LockData)
    ensures Touched(t, k)[k := d] == t[k := d] && Touched(t, k) - {k} == t - {k}
  {
  }

  function Seconds(timeout: Option<int>, far: real): real {
    if timeout.None? then far else timeout.value as real
  }

  function TUpdate(t: Table, k: string, v: Value, timeout: Option<int>, now: real, c: Setting): Table {
    t[k := LockData(v, now + Seconds(timeout, c.far))]
  }

  function TLock(t: Table, k: string, v: string, timeout: Option<int>, now: real, c: Setting): (Table, Reply) {
    if TLive(t, k, now) then (t, Answer(false))
    else (TUpdate(t, k, Text(v), timeout, now, c), Answer(true))
  }

  function TRLock(t: Table, k: string, v: string, timeout: Option<int>, now: real, c: Setting): (Table, Reply) {
    if TLive(t, k, now) && t[k].value != Text(v) then (t, Answer(false))
    else (TUpdate(t, k, Text(v), timeout, now, c), Answer(true))
  }

  function TConditional(t: Table, k: string, cmp: Cmp, compared: real, action: Action, now: real, c: Setting)
    : (Table, Reply)
  {
    var current := if TLive(t, k, now) then NumberOf(t[k].value, c) else None;
    if TLive(t, k, now) && current.None? then (t, Error)
    else if current.Some? && !Compare(cmp, compared, current.value, c.eps) then (t, Answer(false))
    else match action
         case Delete => (t - {k}, Answer(true))
         case Put(v, shown, ex) => (TUpdate(t, k, Num(v, shown), ex, now, c), Answer(true))
  }

  class ThreadLock {
    const setting: Setting
    var locks: Table

    constructor (setting: Setting)
      ensures this.setting == setting && locks == map[]
    {
      this.setting, locks := setting, map[];
    }

    method Read(k: string) returns (d: LockData)
      modifies this
      ensures locks == Touched(old(locks), k) && d == locks[k]
    {
      if k !in locks {
        locks := locks[k := LockData(Text("1"), 0.0)];
      }
      d := locks[k];
    }

    method IsExpired(k: string, now: real) returns (expired: bool)
      requires now >= 0.0
      modifies this
      ensures locks == Touched(old(locks), k) && expired == !TLive(old(locks), k, now)
    {
      var d := Read(k);
      expired := d.expiry - now <= 0.0;
    }

    method Update(k: string, v: Value, timeout: Option<int>, now: real)
      modifies this
      ensures locks == TUpdate(old(locks), k, v, timeout, now, setting)
    {
      locks := locks[k := LockData(v, now + Seconds(timeout, setting.far))];
    }

    method Lock(k: string, v: string, timeout: Option<int>, now: real) returns (r: Reply)
      requires now >= 0.0
      modifies this
      ensures (locks, r) == TLock(old(locks), k, v, timeout, now, setting)
    {
      var expired := IsExpired(k, now);
      if !expired {
        return Answer(false);
      }
      TouchedAndGone(old(locks), k, LockData(Text(v), now + Seconds(timeout, setting.far)));
      Update(k, Text(v), timeout, now);
      return Answer(true);
    }

    method RLock(k: string, v: string, timeout: Option<int>, now: real) returns (r: Reply)
      requires now >= 0.0
      modifies this
      ensures (locks, r) == TRLock(old(locks), k, v, timeout, now, setting)
    {
      var d := Read(k);
      if d.expiry > now && d.value != Text(v) {
        return Answer(false);
      }
      TouchedAndGone(old(locks), k, LockData(Text(v), now + Seconds(timeout, setting.far)));
      Update(k, Text(v), timeout, now);
      return Answer(true);
    }

    method Unlock(k: string) returns (r: Reply)
      modifies this
      ensures locks == old(locks) - {k} && r == Answer(k in old(locks))
    {
      r := Answer(k in locks);
      locks := locks - {k};
    }

    method LockValue(k: string, now: real) returns (r: Reply)
      requires now >= 0.0
      modifies this
      ensures locks == Touched(old(locks), k)
      ensures r == Held(if TLive(old(locks), k, now) then Some(Shown(old(locks)[k].value)) else None)
    {
      var d := Read(k);
      if d.expiry <= now {
        return Held(None);
      }
      return Held(Some(Shown(d.value)));
    }

    method ConditionalSetDel(k: string, cmp: Cmp, compared: real, action: Action, now: real) returns (r: Reply)
      requires now >= 0.0
      modifies this
      ensures (locks, r) == TConditional(old(locks), k, cmp, compared, action, now, setting)
    {
      var d := Read(k);
      var current: Option<real> := None;
      if d.expiry > now {
        current := NumberOf(d.value, setting);
        if current.None? {
          return Error;  // float() raises ValueError
        }
      }
      if current.None? || Compare(cmp, compared, current.value, setting.eps) {
        match action {
          case Delete =>
            TouchedAndGone(old(locks), k, d);
            locks := locks - {k};
          case Put(v, shown, ex) =>
            TouchedAndGone(old(locks), k, LockData(Num(v, shown), now + Seconds(ex, setting.far)));
            Update(k, Num(v, shown), ex, now);
        }
        return Answer(true);
      }
      return Answer(false);
    }

    /** Any call. */
    method Apply(op: Op, now: real) returns (r: Reply)
      requires now >= 0.0
      modifies this
      ensures (locks, r) == TStep(old(locks), op, now, setting)
    {
      match op {
        case Update(k, v, timeout) =>
          Update(k, Text(v), timeout, now);
          r := Unit;
        case Lock(k, v, timeout) =>
          r := Lock(k, v, timeout, now);
        case RLock(k, v, timeout) =>
          r := RLock(k, v, timeout, now);
        case Unlock(k) =>
          r := Unlock(k);
        case IsLocked(k) =>
          var expired := IsExpired(k, now);
          r := Answer(!expired);
        case LockValue(k) =>
          r := LockValue(k, now);
        case Conditional(k, cmp, compared, action) =>
          r := ConditionalSetDel(k, cmp, compared, action, now);
      }
    }
  }

  // ---------------------------------------------------------------- RedisLock

  datatype Deadline = Never | At(time: real)

  /** The server stores texts only. */
  datatype Cell = Cell(text: string, deadline: Deadline)

  type Store = map<string, Cell>

  predicate RLive(s: Store, k: string, now: real) {
    k in s && (s[k].deadline.Never? || now < s[k].deadline.time)
  }

  /** What EX, or no EX, amounts to. */
  function DeadlineOf(timeout: Option<int>, now: real): Deadline {
    if timeout.None? then Never else At(now + timeout.value as real)
  }

  /** The server refuses an EX that is not positive. */
  predicate Refused(timeout: Option<int>) {
    timeout.Some? && timeout.value <= 0
  }

  function SetEx(s: Store, k: string, v: string, timeout: Option<int>, now: real): (Store, Reply) {
    if Refused(timeout) then (s, Error) else (s[k := Cell(v, DeadlineOf(timeout, now))], Unit)
  }

  /** SET .. NX EX */
  function SetNx(s: Store, k: string, v: string, timeout: Option<int>, now: real): (Store, Reply) {
    if Refused(timeout) then (s, Error)
    else if RLive(s, k, now) then (s, Answer(false))
    else (s[k := Cell(v, DeadlineOf(timeout, now))], Answer(true))
  }

  /** SET .. NX EX GET: a live key is left alone, whoever holds it. */
  function SetNxGet(s: Store, k: string, v: string, timeout: Option<int>, now: real): (Store, Reply) {
    if Refused(timeout) then (s, Error)
    else if RLive(s, k, now) then (s, Answer(s[k].text == v))
    else (s[k := Cell(v, DeadlineOf(timeout, now))], Answer(true))
  }

  /** The generated script: a text tonumber() cannot read counts as missing. */
  function RConditional(s: Store, k: string, cmp: Cmp, compared: real, action: Action, now: real, c: Setting)
    : (Store, Reply)
  {
    var current := if RLive(s, k, now) then c.read(s[k].text) else None;
    if current.Some? && !Compare(cmp, compared, current.value, c.eps) then (s, Answer(false))
    else match action
         case Delete => (s - {k}, Answer(true))
         case Put(v, _, ex) =>
           (s[k := Cell(c.lua(v), if Refused(ex) then Never else DeadlineOf(ex, now))], Answer(true))
  }

  class RedisLock {
    const setting: Setting
    var store: Store

    constructor (setting: Setting)
      ensures this.setting == setting && store == map[]
    {
      this.setting, store := setting, map[];
    }

    method Update(k: string, v: string, timeout: Option<int>, now: real) returns (r: Reply)
      modifies this
      ensures (store, r) == SetEx(old(store), k, v, timeout, now)
    {
      if Refused(timeout) {
        return Error;
      }
      store := store[k := Cell(v, DeadlineOf(timeout, now))];
      return Unit;
    }

    method Lock(k: string, v: string, timeout: Option<int>, now: real) returns (r: Reply)
      modifies this
      ensures (store, r) == SetNx(old(store), k, v, timeout, now)
    {
      if Refused(timeout) {
        return Error;
      }
      if RLive(store, k, now) {
        return Answer(false);
      }
      store := store[k := Cell(v, DeadlineOf(timeout, now))];
      return Answer(true);
    }

    method RLock(k: string, v: string, timeout: Option<int>, now: real) returns (r: Reply)
      modifies this
      ensures (store, r) == SetNxGet(old(store), k, v, timeout, now)
    {
      if Refused(timeout) {
        return Error;
      }
      var oldValue := if RLive(store, k, now) then Some(store[k].text) else None;
      if oldValue.None? {
        store := store[k := Cell(v, DeadlineOf(timeout, now))];
      }
      return Answer(oldValue.None? || oldValue.value == v);
    }

    method Unlock(k: string, now: real) returns (r: Reply)
      modifies this
      ensures store == old(store) - {k} && r == Answer(RLive(old(store), k, now))
    {
      r := Answer(RLive(store, k, now));
      store := store - {k};
    }

    method ConditionalSetDel(k: string, cmp: Cmp, compared: real, action: Action, now: real) returns (r: Reply)
      modifies this
      ensures (store, r) == RConditional(old(store), k, cmp, compared, action, now, setting)
    {
      var current := if RLive(store, k, now) then setting.read(store[k].text) else None;
      if current.None? || Compare(cmp, compared, current.value, setting.eps) {
        match action {
          case Delete =>
            store := store - {k};
          case Put(v, _, ex) =>
            if ex.Some? && ex.value > 0 {
              store := store[k := Cell(setting.lua(v), At(now + ex.value as real))];
            } else {
              store := store[k := Cell(setting.lua(v), Never)];
            }
        }
        return Answer(true);
      }
      return Answer(false);
    }

    /** Any call. */
    method Apply(op: Op, now: real) returns (r: Reply)
      modifies this
      ensures (store, r) == RStep(old(store), op, now, setting)
    {
      match op {
        case Update(k, v, timeout) =>
          r := Update(k, v, timeout, now);
        case Lock(k, v, timeout) =>
          r := Lock(k, v, timeout, now);
        case RLock(k, v, timeout) =>
          r := RLock(k, v, timeout, now);
        case Unlock(k) =>
          r := Unlock(k, now);
        case IsLocked(k) =>
          r := Answer(RLive(store, k, now));
        case LockValue(k) =>
          r := Held(if RLive(store, k, now) then Some(store[k].text) else None);
        case Conditional(k, cmp, compared, action) =>
          r := ConditionalSetDel(k, cmp, compared, action, now);
      }
    }
  }

  // ---------------------------------------------------------------- the simulation

  datatype Op =
    | Update(key: string, value: string, timeout: Option<int>)
    | Lock(key: string, value: string, timeout: Option<int>)
    | RLock(key: string, value: string, timeout: Option<int>)
    | Unlock(key: string)
    | IsLocked(key: string)
    | LockValue(key: string)
    | Conditional(key: string, cmp: Cmp, compared: real, action: Action)

  function TStep(t: Table, op: Op, now: real, c: Setting): (Table, Reply) {
    match op
    case Update(k, v, timeout) => (TUpdate(t, k, Text(v), timeout, now, c), Unit)
    case Lock(k, v, timeout) => TLock(t, k, v, timeout, now, c)
    case RLock(k, v, timeout) => TRLock(t, k, v, timeout, now, c)
    case Unlock(k) => (t - {k}, Answer(k in t))
    case IsLocked(k) => (Touched(t, k), Answer(TLive(t, k, now)))
    case LockValue(k) => (Touched(t, k), Held(if TLive(t, k, now) then Some(Shown(t[k].value)) else None))
    case Conditional(k, cmp, compared, action) => TConditional(t, k, cmp, compared, action, now, c)
  }

  function RStep(s: Store, op: Op, now: real, c: Setting): (Store, Reply) {
    match op
    case Update(k, v, timeout) => SetEx(s, k, v, timeout, now)
    case Lock(k, v, timeout) => SetNx(s, k, v, timeout, now)
    case RLock(k, v, timeout) => SetNxGet(s, k, v, timeout, now)
    case Unlock(k) => (s - {k}, Answer(RLive(s, k, now)))
    case IsLocked(k) => (s, Answer(RLive(s, k, now)))
    case LockValue(k) => (s, Held(if RLive(s, k, now) then Some(s[k].text) else None))
    case Conditional(k, cmp, compared, action) => RConditional(s, k, cmp, compared, action, now, c)
  }

  /** A text is stored as it is, a number as the text the server makes of it. */
  function Stored(v: Value, c: Setting): string {
    match v
    case Text(s) => s
    case Num(x, _) => c.lua(x)
  }

  predicate SameAt(t: Table, s: Store, now: real, c: Setting, k: string) {
    && (TLive(t, k, now) <==> RLive(s, k, now))
    && (TLive(t, k, now) ==> s[k] == Cell(Stored(t[k].value, c), At(t[k].expiry)))
  }

  /** The same live keys, with the same values and deadlines. */
  ghost predicate Agree(t: Table, s: Store, now: real, c: Setting) {
    forall k :: SameAt(t, s, now, c, k)
  }

  predicate Positive(timeout: Option<int>) {
    timeout.Some? && timeout.value > 0
  }

  /** The number here and what the server reads there, if it reads a number at all, pass the same test. */
  predicate SameTest(cmp: Cmp, compared: real, here: real, there: Option<real>, c: Setting) {
    Compare(cmp, compared, here, c.eps) <==> there.None? || Compare(cmp, compared, there.value, c.eps)
  }

  /** The calls on which the in-memory lock does what Redis does, told from the table alone. */
  predicate Faithful(t: Table, op: Op, now: real, c: Setting) {
    match op
    // no timeout is a far one here, and none there
    case Update(_, _, timeout) => Positive(timeout)
    case Lock(k, _, timeout) => if TLive(t, k, now) then !Refused(timeout) else Positive(timeout)
    // a holder that locks again gets a new deadline here, and keeps its old one there; a number is no text here
    case RLock(k, v, timeout) =>
      if !TLive(t, k, now) then Positive(timeout)
      else
        && !Refused(timeout)
        && (match t[k].value
            case Text(s) => s == v ==> t[k].expiry == now + Seconds(timeout, c.far)
            case Num(x, _) => c.lua(x) != v)
    // a leftover entry still counts as unlocked here
    case Unlock(k) => k in t ==> TLive(t, k, now)
    // the two languages may write the same number differently
    case LockValue(k) => TLive(t, k, now) ==> Shown(t[k].value) == Stored(t[k].value, c)
    case Conditional(k, cmp, compared, action) =>
      var current := if TLive(t, k, now) then NumberOf(t[k].value, c) else None;
      && (TLive(t, k, now) ==>
            current.Some? && SameTest(cmp, compared, current.value, c.read(Stored(t[k].value, c)), c))
      && (action.Put? && (current.None? || Compare(cmp, compared, current.value, c.eps)) ==> Positive(action.ex))
    case _ => true
  }

  /** A call touches no key but its own. */
  lemma OtherKeys(t: Table, s: Store, op: Op, now: real, c: Setting, k: string)
    requires k != op.key
    ensures var t' := TStep(t, op, now, c).0;
            (k in t' <==> k in t) && (k in t ==> t'[k] == t[k])
    ensures var s' := RStep(s, op, now, c).0;
            (k in s' <==> k in s) && (k in s ==> s'[k] == s[k])
  {
  }

  /** Exactly on those calls the two stay in agreement and give the same reply. */
  lemma StepAgrees(t: Table, s: Store, op: Op, now: real, c: Setting)
    requires now >= 0.0 && c.far > 0.0 && Agree(t, s, now, c)
    ensures Agree(TStep(t, op, now, c).0, RStep(s, op, now, c).0, now, c)
            && TStep(t, op, now, c).1 == RStep(s, op, now, c).1
            <==> Faithful(t, op, now, c)
  {
    var (t', a) := TStep(t, op, now, c);
    var (s', b) := RStep(s, op, now, c);
    assert SameAt(t, s, now, c, op.key);
    forall k | k != op.key
      ensures SameAt(t', s', now, c, k)
    {
      OtherKeys(t, s, op, now, c, k);
      assert SameAt(t, s, now, c, k);
    }
    assert Agree(t', s', now, c) <==> SameAt(t', s', now, c, op.key);
  }

  /** The clock alone never breaks agreement. */
  lemma AgreeLater(t: Table, s: Store, now: real, later: real, c: Setting)
    requires Agree(t, s, now, c) && now <= later
    ensures Agree(t, s, later, c)
  {
    forall k
      ensures SameAt(t, s, later, c, k)
    {
      assert SameAt(t, s, now, c, k);
    }
  }

  datatype Call = Call(op: Op, time: real)

  /** The clock moves forward, and every call is one the in-memory lock is faithful on. */
  ghost predicate FaithfulRun(t: Table, calls: seq<Call>, now: real, c: Setting)
    decreases |calls|
  {
    calls == [] ||
    (now <= calls[0].time && Faithful(t, calls[0].op, calls[0].time, c) &&
     FaithfulRun(TStep(t, calls[0].op, calls[0].time, c).0, calls[1..], calls[0].time, c))
  }

  function TRun(t: Table, calls: seq<Call>, c: Setting): (Table, seq<Reply>)
    decreases |calls|
  {
    if calls == [] then (t, [])
    else
      var (t', a) := TStep(t, calls[0].op, calls[0].time, c);
      var (end, rest) := TRun(t', calls[1..], c);
      (end, [a] + rest)
  }

  function RRun(s: Store, calls: seq<Call>, c: Setting): (Store, seq<Reply>)
    decreases |calls|
  {
    if calls == [] then (s, [])
    else
      var (s', b) := RStep(s, calls[0].op, calls[0].time, c);
      var (end, rest) := RRun(s', calls[1..], c);
      (end, [b] + rest)
  }

  function EndTime(calls: seq<Call>, now: real): real {
    if calls == [] then now else calls[|calls| - 1].time
  }

  /** Over any such run the two give the same replies and end with the same live locks. */
  lemma {:induction false} RunAgrees(t: Table, s: Store, calls: seq<Call>, now: real, c: Setting)
    requires now >= 0.0 && c.far > 0.0 && Agree(t, s, now, c) && FaithfulRun(t, calls, now, c)
    ensures TRun(t, calls, c).1 == RRun(s, calls, c).1
    ensures Agree(TRun(t, calls, c).0, RRun(s, calls, c).0, EndTime(calls, now), c)
    decreases |calls|
  {
    hide TStep, RStep, Faithful, Agree;
    if calls == [] {
    } else {
      var op, time := calls[0].op, calls[0].time;
      AgreeLater(t, s, now, time, c);
      StepAgrees(t, s, op, time, c);
      RunAgrees(TStep(t, op, time, c).0, RStep(s, op, time, c).0, calls[1..], time, c);
    }
  }

  /** After i of the calls the lock stands at t' and has given the replies x. */
  predicate TRan(t: Table, calls: seq<Call>, c: Setting, i: nat, t': Table, x: seq<Reply>) {
    i <= |calls| && |x| == i && TRun(t, calls, c) == (TRun(t', calls[i..], c).0, x + TRun(t', calls[i..], c).1)
  }

  predicate RRan(s: Store, calls: seq<Call>, c: Setting, i: nat, s': Store, y: seq<Reply>) {
    i <= |calls| && |y| == i && RRun(s, calls, c) == (RRun(s', calls[i..], c).0, y + RRun(s', calls[i..], c).1)
  }

  lemma TRanOn(t: Table, calls: seq<Call>, c: Setting, i: nat, t': Table, x: seq<Reply>)
    ensures TRan(t, calls, c, 0, t, [])
    ensures i < |calls| && TRan(t, calls, c, i, t', x) ==>
              var (u, r) := TStep(t', calls[i].op, calls[i].time, c); TRan(t, calls, c, i + 1, u, x + [r])
    ensures TRan(t, calls, c, |calls|, t', x) ==> TRun(t, calls, c) == (t', x)
  {
    hide TStep;
    assert calls[0..] == calls && calls[|calls|..] == [] && x + [] == x;
    assert [] + TRun(t, calls, c).1 == TRun(t, calls, c).1;
    if i < |calls| {
      assert calls[i..][0] == calls[i] && calls[i..][1..] == calls[i + 1..];
      var (u, r) := TStep(t', calls[i].op, calls[i].time, c);
      assert x + ([r] + TRun(u, calls[i + 1..], c).1) == x + [r] + TRun(u, calls[i + 1..], c).1;
    }
  }

  lemma RRanOn(s: Store, calls: seq<Call>, c: Setting, i: nat, s': Store, y: seq<Reply>)
    ensures RRan(s, calls, c, 0, s, [])
    ensures i < |calls| && RRan(s, calls, c, i, s', y) ==>
              var (u, r) := RStep(s', calls[i].op, calls[i].time, c); RRan(s, calls, c, i + 1, u, y + [r])
    ensures RRan(s, calls, c, |calls|, s', y) ==> RRun(s, calls, c) == (s', y)
  {
    hide RStep;
    assert calls[0..] == calls && calls[|calls|..] == [] && y + [] == y;
    assert [] + RRun(s, calls, c).1 == RRun(s, calls, c).1;
    if i < |calls| {
      assert calls[i..][0] == calls[i] && calls[i..][1..] == calls[i + 1..];
      var (u, r) := RStep(s', calls[i].op, calls[i].time, c);
      assert y + ([r] + RRun(u, calls[i + 1..], c).1) == y + [r] + RRun(u, calls[i + 1..], c).1;
    }
  }

  /** The two classes side by side: the same calls at the same times, the same replies, the same live locks. */
  method RunBoth(a: ThreadLock, b: RedisLock, calls: seq<Call>, now: real) returns (x: seq<Reply>, y: seq<Reply>)
    requires now >= 0.0 && a.setting == b.setting && a.setting.far > 0.0
    requires Agree(a.locks, b.store, now, a.setting) && FaithfulRun(a.locks, calls, now, a.setting)
    modifies a, b
    ensures x == y && |x| == |calls|
    ensures Agree(a.locks, b.store, EndTime(calls, now), a.setting)
  {
    hide TStep, RStep, Faithful, Agree, TRan, RRan, TRun, RRun;
    ghost var t, s, c := a.locks, b.store, a.setting;
    RunAgrees(t, s, calls, now, c);
    x, y := [], [];
    ghost var time := now;
    TRanOn(t, calls, c, 0, t, []);
    RRanOn(s, calls, c, 0, s, []);
    assert calls[0..] == calls;
    for i := 0 to |calls|
      invariant time >= 0.0 && FaithfulRun(a.locks, calls[i..], time, c)
      invariant |x| == i && TRan(t, calls, c, i, a.locks, x) && RRan(s, calls, c, i, b.store, y)
    {
      assert calls[i..][0] == calls[i] && calls[i..][1..] == calls[i + 1..];
      TRanOn(t, calls, c, i, a.locks, x);
      RRanOn(s, calls, c, i, b.store, y);
      var p := a.Apply(calls[i].op, calls[i].time);
      var q := b.Apply(calls[i].op, calls[i].time);
      x, y, time := x + [p], y + [q], calls[i].time;
    }
    TRanOn(t, calls, c, 0, a.locks, x);
    RRanOn(s, calls, c, 0, b.store, y);
  }

  // ---------------------------------------------------------------- what the calls do

  /** What the six conditional calls ask of an argument v when the key holds x: setgt, setlt, setge, setle, seteq and
      setne, and the deletions of the same names. */
  predicate Passes(cmp: Cmp, v: real, x: real, eps: real) {
    match cmp
    case Gt => v > x
    case Lt => v < x
    case Ge => v >= x - eps
    case Le => v <= x + eps
    case Eq => x - eps < v < x + eps
    case Ne => v < x - eps || v > x + eps
  }

  /** A conditional call in memory, by the number the key holds: a live text that is none raises, a live number that
      does not pass changes nothing, and in all other cases the key is set or gone. */
  lemma ConditionalInMemory(t: Table, k: string, cmp: Cmp, v: real, action: Action, now: real, c: Setting)
    ensures var (t', reply) := TStep(t, Conditional(k, cmp, v, action), now, c);
            if k in t && t[k].expiry > now && NumberOf(t[k].value, c).None? then t' == t && reply == Error
            else if k in t && t[k].expiry > now && !Passes(cmp, v, NumberOf(t[k].value, c).value, c.eps) then
              t' == t && reply == Answer(false)
            else
              && reply == Answer(true)
              && match action
                 case Delete => t' == t - {k}
                 case Put(n, shown, None) => t' == t[k := LockData(Num(n, shown), now + c.far)]
                 case Put(n, shown, Some(ex)) => t' == t[k := LockData(Num(n, shown), now + ex as real)]
  {
  }

  /** The same on the server, where a text that is no number counts as missing. */
  lemma ConditionalOnServer(s: Store, k: string, cmp: Cmp, v: real, action: Action, now: real, c: Setting)
    ensures var (s', reply) := RStep(s, Conditional(k, cmp, v, action), now, c);
            var live := k in s && (s[k].deadline == Never || now < s[k].deadline.time);
            if live && c.read(s[k].text).Some? && !Passes(cmp, v, c.read(s[k].text).value, c.eps) then
              s' == s && reply == Answer(false)
            else
              && reply == Answer(true)
              && match action
                 case Delete => s' == s - {k}
                 case Put(n, _, None) => s' == s[k := Cell(c.lua(n), Never)]
                 case Put(n, _, Some(ex)) =>
                   s' == s[k := Cell(c.lua(n), if ex > 0 then At(now + ex as real) else Never)]
  {
  }

  /** Calls on other keys leave a key as it is. */
  lemma {:induction false} OtherCalls(t: Table, s: Store, calls: seq<Call>, k: string, c: Setting)
    requires forall i | 0 <= i < |calls| :: calls[i].op.key != k
    ensures var t' := TRun(t, calls, c).0; (k in t' <==> k in t) && (k in t ==> t'[k] == t[k])
    ensures var s' := RRun(s, calls, c).0; (k in s' <==> k in s) && (k in s ==> s'[k] == s[k])
    decreases |calls|
  {
    hide TStep, RStep;
    if calls == [] {
    } else {
      var call := calls[0];
      OtherKeys(t, s, call.op, call.time, c, k);
      OtherCalls(TStep(t, call.op, call.time, c).0, RStep(s, call.op, call.time, c).0, calls[1..], k, c);
    }
  }

  /** Taking a key that nobody holds, by lock or rlock, or anybody's, by update. */
  predicate Takes(t: Table, s: Store, op: Op, k: string, v: string, secs: int, start: real) {
    || op == Update(k, v, Some(secs))
    || (op in {Lock(k, v, Some(secs)), RLock(k, v, Some(secs))}
        && (k in t ==> t[k].expiry <= start)
        && (k in s ==> s[k].deadline != Never && s[k].deadline.time <= start))
  }

  /** What the calls answer when both locks hold v under k until `due`. */
  lemma AnswersUntil(t: Table, s: Store, k: string, v: string, due: real, now: real, other: string, n: int, c: Setting)
    requires n > 0 && k in t && t[k] == LockData(Text(v), due) && k in s && s[k] == Cell(v, At(due))
    ensures var over := now >= due;
            && TStep(t, Lock(k, other, Some(n)), now, c).1 == RStep(s, Lock(k, other, Some(n)), now, c).1
               == Answer(over)
            && TStep(t, RLock(k, other, Some(n)), now, c).1 == RStep(s, RLock(k, other, Some(n)), now, c).1
               == Answer(over || other == v)
            && TStep(t, IsLocked(k), now, c).1 == RStep(s, IsLocked(k), now, c).1 == Answer(!over)
            && TStep(t, LockValue(k), now, c).1 == RStep(s, LockValue(k), now, c).1
               == Held(if over then None else Some(v))
            && RStep(s, Unlock(k), now, c).1 == Answer(!over) && TStep(t, Unlock(k), now, c).1 == Answer(true)
  {
  }

  lemma FreeAtOnce(t: Table, s: Store, k: string, now: real, other: string, n: int, c: Setting)
    requires n > 0
    ensures TStep(TStep(t, Unlock(k), now, c).0, Lock(k, other, Some(n)), now, c).1 == Answer(true)
    ensures RStep(RStep(s, Unlock(k), now, c).0, Lock(k, other, Some(n)), now, c).1 == Answer(true)
  {
  }

  /** A key taken at `start` for secs seconds is its holder's for exactly that long in both locks, whatever happens to
      other keys: until then nobody else can lock it and its value can be read, from then on anybody can lock it. Once
      unlocked it is free at once. */
  lemma HeldForItsTime(t: Table, s: Store, first: Op, k: string, v: string, secs: int, start: real, others: seq<Call>,
                       now: real, other: string, n: int, c: Setting)
    requires start >= 0.0 && secs > 0 && n > 0 && now >= start && Takes(t, s, first, k, v, secs, start)
    requires forall i | 0 <= i < |others| :: others[i].op.key != k
    ensures var (t0, a) := TStep(t, first, start, c);
            var (s0, b) := RStep(s, first, start, c);
            var (t1, s1) := (TRun(t0, others, c).0, RRun(s0, others, c).0);
            var over := now >= start + secs as real;
            && a == b == (if first.Update? then Unit else Answer(true))
            && TStep(t1, Lock(k, other, Some(n)), now, c).1 == RStep(s1, Lock(k, other, Some(n)), now, c).1
               == Answer(over)
            && TStep(t1, RLock(k, other, Some(n)), now, c).1 == RStep(s1, RLock(k, other, Some(n)), now, c).1
               == Answer(over || other == v)
            && TStep(t1, IsLocked(k), now, c).1 == RStep(s1, IsLocked(k), now, c).1 == Answer(!over)
            && TStep(t1, LockValue(k), now, c).1 == RStep(s1, LockValue(k), now, c).1
               == Held(if over then None else Some(v))
            && RStep(s1, Unlock(k), now, c).1 == Answer(!over) && TStep(t1, Unlock(k), now, c).1 == Answer(true)
            && TStep(TStep(t1, Unlock(k), now, c).0, Lock(k, other, Some(n)), now, c).1 == Answer(true)
            && RStep(RStep(s1, Unlock(k), now, c).0, Lock(k, other, Some(n)), now, c).1 == Answer(true)
  {
    hide TRun, RRun, TStep, RStep, Takes;
    TakenEntry(t, s, first, k, v, secs, start, c);
    var t0, s0 := TStep(t, first, start, c).0, RStep(s, first, start, c).0;
    OtherCalls(t0, s0, others, k, c);
    var t1, s1 := TRun(t0, others, c).0, RRun(s0, others, c).0;
    AnswersUntil(t1, s1, k, v, start + secs as real, now, other, n, c);
    FreeAtOnce(t1, s1, k, now, other, n, c);
  }

  lemma TakenEntry(t: Table, s: Store, first: Op, k: string, v: string, secs: int, start: real, c: Setting)
    requires secs > 0 && Takes(t, s, first, k, v, secs, start)
    ensures var (t0, a) := TStep(t, first, start, c);
            var (s0, b) := RStep(s, first, start, c);
            && a == b == (if first.Update? then Unit else Answer(true))
            && k in t0 && t0[k] == LockData(Text(v), start + secs as real)
            && k in s0 && s0[k] == Cell(v, At(start + secs as real))
  {
  }

  // ---------------------------------------------------------------- where they part

  lemma RunsOn(t: Table, s: Store, call: Call, rest: seq<Call>, c: Setting)
    ensures var (u, a) := TStep(t, call.op, call.time, c);
            TRun(t, [call] + rest, c) == (TRun(u, rest, c).0, [a] + TRun(u, rest, c).1)
    ensures var (u, b) := RStep(s, call.op, call.time, c);
            RRun(s, [call] + rest, c) == (RRun(u, rest, c).0, [b] + RRun(u, rest, c).1)
  {
    hide TStep, RStep;
    assert ([call] + rest)[1..] == rest;
  }

  function Both(calls: seq<Call>, c: Setting): (seq<Reply>, seq<Reply>) {
    (TRun(map[], calls, c).1, RRun(map[], calls, c).1)
  }

  lemma LastCall(t: Table, s: Store, call: Call, c: Setting)
    ensures TRun(t, [call], c).1 == [TStep(t, call.op, call.time, c).1]
    ensures RRun(s, [call], c).1 == [RStep(s, call.op, call.time, c).1]
  {
    hide TStep, RStep;
    assert [call][1..] == [];
  }

  lemma Joined(x: Reply, y: Reply, z: Reply)
    ensures [x] + [y] == [x, y] && [x] + [y, z] == [x, y, z]
  {
  }

  /** Two calls on fresh locks. */
  lemma TwoCalls(a: Call, b: Call, c: Setting)
    ensures var (t, x1) := TStep(map[], a.op, a.time, c);
            var (s, y1) := RStep(map[], a.op, a.time, c);
            Both([a, b], c) == ([x1, TStep(t, b.op, b.time, c).1], [y1, RStep(s, b.op, b.time, c).1])
  {
    hide TStep, RStep, TRun, RRun;
    var (t, x1) := TStep(map[], a.op, a.time, c);
    var (s, y1) := RStep(map[], a.op, a.time, c);
    RunsOn(map[], map[], a, [b], c);
    LastCall(t, s, b, c);
    assert [a] + [b] == [a, b];
    Joined(x1, TStep(t, b.op, b.time, c).1, x1);
    Joined(y1, RStep(s, b.op, b.time, c).1, y1);
  }

  /** An entry that ran out counts as unlocked here, and there it is gone. */
  lemma LeftoverIsUnlocked(c: Setting)
    ensures Both([Call(Lock("k", "x", Some(1)), 0.0), Call(Unlock("k"), 2.0)], c)
            == ([Answer(true), Answer(true)], [Answer(true), Answer(false)])
  {
    TwoCalls(Call(Lock("k", "x", Some(1)), 0.0), Call(Unlock("k"), 2.0), c);
  }

  /** A holder that locks again. */
  lemma HolderIsRenewed(c: Setting)
    ensures Both([Call(Lock("k", "x", Some(1)), 0.0), Call(RLock("k", "x", Some(5)), 0.5), Call(IsLocked("k"), 3.0)], c)
            == ([Answer(true), Answer(true), Answer(true)], [Answer(true), Answer(true), Answer(false)])
  {
    hide TRun, RRun;
    var a, b, d := Call(Lock("k", "x", Some(1)), 0.0), Call(RLock("k", "x", Some(5)), 0.5), Call(IsLocked("k"), 3.0);
    var t, s := TStep(map[], a.op, a.time, c).0, RStep(map[], a.op, a.time, c).0;
    RunsOn(map[], map[], a, [b, d], c);
    RunsOn(t, s, b, [d], c);
    LastCall(TStep(t, b.op, b.time, c).0, RStep(s, b.op, b.time, c).0, d, c);
    assert [a] + [b, d] == [a, b, d] && [b] + [d] == [b, d];
    Joined(Answer(true), Answer(true), Answer(true));
    Joined(Answer(true), Answer(false), Answer(false));
    Joined(Answer(true), Answer(true), Answer(false));
  }

  /** No timeout is a finite one here. */
  lemma NoTimeoutRunsOut(c: Setting)
    requires c.far > 0.0
    ensures Both([Call(Lock("k", "x", None), 0.0), Call(IsLocked("k"), c.far)], c)
            == ([Answer(true), Answer(false)], [Answer(true), Answer(true)])
  {
    TwoCalls(Call(Lock("k", "x", None), 0.0), Call(IsLocked("k"), c.far), c);
  }

  /** A conditional set with an expiry of zero is over at once here, and for good there. */
  lemma ZeroExpirySet(c: Setting)
    ensures Both([Call(Conditional("k", Gt, 1.0, Put(1.0, "1.0", Some(0))), 0.0), Call(IsLocked("k"), 0.0)], c)
            == ([Answer(true), Answer(false)], [Answer(true), Answer(true)])
  {
    TwoCalls(Call(Conditional("k", Gt, 1.0, Put(1.0, "1.0", Some(0))), 0.0), Call(IsLocked("k"), 0.0), c);
  }

  /** A holder's name that is no number. */
  lemma NameIsNoNumber(c: Setting)
    requires c.read("x").None?
    ensures Both([Call(Lock("k", "x", Some(5)), 0.0), Call(Conditional("k", Gt, 1.0, Delete), 1.0)], c)
            == ([Answer(true), Error], [Answer(true), Answer(true)])
  {
    TwoCalls(Call(Lock("k", "x", Some(5)), 0.0), Call(Conditional("k", Gt, 1.0, Delete), 1.0), c);
  }

  /** A number set by a conditional call: its texts differ whenever the two languages write it differently, and who
      asks for the lock by the server's text is its holder there only. */
  lemma NumberIsNoText(c: Setting)
    ensures var put := Call(Conditional("k", Gt, 1.0, Put(1.0, "1.0", Some(5))), 0.0);
            && Both([put, Call(LockValue("k"), 1.0)], c)
               == ([Answer(true), Held(Some("1.0"))], [Answer(true), Held(Some(c.lua(1.0)))])
            && Both([put, Call(RLock("k", c.lua(1.0), Some(5)), 1.0)], c)
               == ([Answer(true), Answer(false)], [Answer(true), Answer(true)])
  {
    var put := Call(Conditional("k", Gt, 1.0, Put(1.0, "1.0", Some(5))), 0.0);
    TwoCalls(put, Call(LockValue("k"), 1.0), c);
    TwoCalls(put, Call(RLock("k", c.lua(1.0), Some(5)), 1.0), c);
  }

  // ---------------------------------------------------------------- drift

  function Max(x: real, y: real): real {
    if x < y then y else x
  }

  function MaxOf(x: real, vs: seq<real>): real
    decreases |vs|
  {
    if vs == [] then x else MaxOf(Max(x, vs[0]), vs[1..])
  }

  /** The value a key holds after conditional sets of vs, one after the other, while it stays live. */
  function Settled(cmp: Cmp, x: real, vs: seq<real>, eps: real): real
    decreases |vs|
  {
    if vs == [] then x else Settled(cmp, if Compare(cmp, vs[0], x, eps) then vs[0] else x, vs[1..], eps)
  }

  lemma {:induction false} MaxShift(x: real, y: real, vs: seq<real>)
    requires x <= y
    ensures MaxOf(x, vs) <= MaxOf(y, vs)
    ensures x <= MaxOf(x, vs)
    ensures MaxOf(y, vs) - MaxOf(x, vs) <= y - x
    decreases |vs|
  {
    if vs == [] {
    } else {
      MaxShift(Max(x, vs[0]), Max(y, vs[0]), vs[1..]);
    }
  }

  /** setgt, whatever the order of its arguments, leaves the maximum. */
  lemma {:induction false} SetGtKeepsMax(x: real, vs: seq<real>, eps: real)
    ensures Settled(Gt, x, vs, eps) == MaxOf(x, vs)
    decreases |vs|
  {
    if vs == [] {
    } else {
      SetGtKeepsMax(Max(x, vs[0]), vs[1..], eps);
    }
  }

  /** n calls of setge can fall short of the maximum by at most n times eps, and never exceed it. */
  lemma {:induction false} SetGeDrift(x: real, vs: seq<real>, eps: real)
    requires eps >= 0.0
    ensures MaxOf(x, vs) - |vs| as real * eps <= Settled(Ge, x, vs, eps) <= MaxOf(x, vs)
    decreases |vs|
  {
    if vs == [] {
    } else {
      var y := if Compare(Ge, vs[0], x, eps) then vs[0] else x;
      SetGeDrift(y, vs[1..], eps);
      MaxShift(y, Max(x, vs[0]), vs[1..]);
      assert Max(x, vs[0]) - y <= eps;
      assert |vs| as real * eps == (|vs| - 1) as real * eps + eps;
    }
  }

  function Descent(x: real, n: nat, eps: real): seq<real>
    decreases n
  {
    if n == 0 then [] else [x - eps] + Descent(x - eps, n - 1, eps)
  }

  /** The bound is reached. */
  lemma {:induction false} SetGeDriftIsTight(x: real, n: nat, eps: real)
    requires eps >= 0.0
    ensures |Descent(x, n, eps)| == n && MaxOf(x, Descent(x, n, eps)) == x
    ensures Settled(Ge, x, Descent(x, n, eps), eps) == x - n as real * eps
    decreases n
  {
    if n == 0 {
    } else {
      var rest := Descent(x - eps, n - 1, eps);
      SetGeDriftIsTight(x - eps, n - 1, eps);
      assert Descent(x, n, eps)[1..] == rest;
      MaxShift(x - eps, x, rest);
      DescentStaysBelow(x, x - eps, n - 1, eps);
      assert n as real * eps == (n - 1) as real * eps + eps;
    }
  }

  lemma {:induction false} DescentStaysBelow(x: real, y: real, n: nat, eps: real)
    requires eps >= 0.0 && y <= x
    ensures MaxOf(x, Descent(y, n, eps)) == x
    decreases n
  {
    if n == 0 {
    } else {
      assert Descent(y, n, eps)[1..] == Descent(y - eps, n - 1, eps);
      DescentStaysBelow(x, y - eps, n - 1, eps);
    }
  }

  function Slack(n: nat, eps: real): real {
    n as real * eps
  }

  lemma OneMoreEps(n: nat, eps: real)
    ensures Slack(n + 1, eps) == Slack(n, eps) + eps && Slack(0, eps) == 0.0
  {
    assert (n + 1) as real == n as real + 1.0;
  }

  lemma {:induction false} SetEqWithin(x: real, vs: seq<real>, eps: real)
    requires eps > 0.0 && vs != []
    ensures x - Slack(|vs|, eps) < Settled(Eq, x, vs, eps) < x + Slack(|vs|, eps)
    decreases |vs|
  {
    hide Slack;
    var y, rest := if Compare(Eq, vs[0], x, eps) then vs[0] else x, vs[1..];
    assert x - eps < y < x + eps;
    OneMoreEps(|rest|, eps);
    if rest == [] {
      assert Settled(Eq, y, rest, eps) == y;
    } else {
      SetEqWithin(y, rest, eps);
    }
  }

  /** n calls of seteq stay within n times eps of where they started. */
  lemma SetEqDrift(x: real, vs: seq<real>, eps: real)
    requires eps > 0.0 && vs != []
    ensures x - |vs| as real * eps < Settled(Eq, x, vs, eps) < x + |vs| as real * eps
  {
    hide Settled;
    SetEqWithin(x, vs, eps);
  }

  function Negated(vs: seq<real>): (r: seq<real>)
    ensures |r| == |vs|
  {
    if vs == [] then [] else [-vs[0]] + Negated(vs[1..])
  }

  function MinOf(x: real, vs: seq<real>): real
    decreases |vs|
  {
    if vs == [] then x else MinOf(if vs[0] < x then vs[0] else x, vs[1..])
  }

  /** setlt and setle are setgt and setge upside down. */
  lemma {:induction false} UpsideDown(x: real, vs: seq<real>, eps: real)
    ensures Settled(Lt, x, vs, eps) == -Settled(Gt, -x, Negated(vs), eps)
    ensures Settled(Le, x, vs, eps) == -Settled(Ge, -x, Negated(vs), eps)
    ensures MinOf(x, vs) == -MaxOf(-x, Negated(vs))
    decreases |vs|
  {
    if vs == [] {
    } else {
      assert Negated(vs)[0] == -vs[0] && Negated(vs)[1..] == Negated(vs[1..]);
      UpsideDown(if Compare(Lt, vs[0], x, eps) then vs[0] else x, vs[1..], eps);
      UpsideDown(if Compare(Le, vs[0], x, eps) then vs[0] else x, vs[1..], eps);
      UpsideDown(if vs[0] < x then vs[0] else x, vs[1..], eps);
    }
  }

  /** setlt leaves the minimum, and n calls of setle exceed it by at most n times eps. */
  lemma SetLtAndSetLe(x: real, vs: seq<real>, eps: real)
    requires eps >= 0.0
    ensures Settled(Lt, x, vs, eps) == MinOf(x, vs)
    ensures MinOf(x, vs) <= Settled(Le, x, vs, eps) <= MinOf(x, vs) + |vs| as real * eps
  {
    UpsideDown(x, vs, eps);
    SetGtKeepsMax(-x, Negated(vs), eps);
    SetGeDrift(-x, Negated(vs), eps);
  }

  /** Conditional sets of one key as calls of the lock. */
  function Sets(k: string, cmp: Cmp, vs: seq<real>, shown: real -> string, times: seq<real>, ex: int)
    : (calls: seq<Call>)
    requires |vs| == |times|
  {
    seq(|vs|, i requires 0 <= i < |vs| =>
              Call(Conditional(k, cmp, vs[i], Put(vs[i], shown(vs[i]), Some(ex))), times[i]))
  }

  /** The key is live whenever a call comes, be it that the calls before have renewed it. */
  predicate StaysLive(t: Table, k: string, calls: seq<Call>, c: Setting)
    decreases |calls|
  {
    calls == [] ||
    (TLive(t, k, calls[0].time) && StaysLive(TStep(t, calls[0].op, calls[0].time, c).0, k, calls[1..], c))
  }

  /** The calls of a lock settle a key as computed above, for as long as the key stays live. */
  lemma {:induction false} SetsSettle(t: Table, k: string, cmp: Cmp, x: real, vs: seq<real>, shown: real -> string,
                                      times: seq<real>, ex: int, c: Setting)
    requires |vs| == |times| && k in t && NumberOf(t[k].value, c) == Some(x)
    requires StaysLive(t, k, Sets(k, cmp, vs, shown, times, ex), c)
    ensures var t' := TRun(t, Sets(k, cmp, vs, shown, times, ex), c).0;
            k in t' && NumberOf(t'[k].value, c) == Some(Settled(cmp, x, vs, c.eps))
    decreases |vs|
  {
    if vs == [] {
    } else {
      var calls := Sets(k, cmp, vs, shown, times, ex);
      assert calls[1..] == Sets(k, cmp, vs[1..], shown, times[1..], ex);
      var t' := TStep(t, calls[0].op, calls[0].time, c).0;
      SetsSettle(t', k, cmp, if Compare(cmp, vs[0], x, c.eps) then vs[0] else x, vs[1..], shown, times[1..], ex, c);
    }
  }
}
