/** Leased locks with fencing tokens. */
module KvLocks {
  import opened Wrappers

  /** The shortest lease that the API grants, in milliseconds. */
  const MIN_LEASE: int := 1000

  const MAX_I64: int := 0x7fff_ffff_ffff_ffff

  datatype Lease = Lease(owner: string, token: nat, until: int)

  datatype LockTable = LockTable(locks: map<string, Lease>, lastToken: nat)

  datatype Acquisition =
    | Acquired(token: nat, until: int)
    | Busy(until: int, retryAfterMillis: int)
    | Rejected

  function Clamp(x: int, low: int, high: int): int {
    if x < low then low else if x > high then high else x
  }

  predicate HeldByOther(t: LockTable, name: string, owner: string, now: int) {
    name in t.locks && t.locks[name].until > now && t.locks[name].owner != owner
  }

  predicate HeldBySelf(t: LockTable, name: string, owner: string, now: int) {
    name in t.locks && t.locks[name].until > now && t.locks[name].owner == owner
  }

  /** The table's checks refuse a negative deadline and a token past the integer range. */
  function AcquireLock(t: LockTable, name: string, owner: string, now: int, until: int): (LockTable, Acquisition) {
    if HeldByOther(t, name, owner, now) then
      (t, Busy(t.locks[name].until, Clamp(t.locks[name].until - now, 100, 1000)))
    else if until < 0 then (t, Rejected)
    else if HeldBySelf(t, name, owner, now) then
      (t.(locks := t.locks[name := t.locks[name].(until := until)]), Acquired(t.locks[name].token, until))
    else if t.lastToken >= MAX_I64 then (t, Rejected)
    else
      var token := t.lastToken + 1;
      (LockTable(t.locks[name := Lease(owner, token, until)], token), Acquired(token, until))
  }

  predicate Renewable(t: LockTable, name: string, owner: string, token: nat, now: int) {
    && token <= MAX_I64
    && name in t.locks && t.locks[name].owner == owner && t.locks[name].token == token && t.locks[name].until > now
  }

  /** None is a storage error; Some(false) a lease that is gone or not the caller's. */
  function RenewLock(t: LockTable, name: string, owner: string, token: nat, now: int, until: int): (LockTable,
          Option<bool>) {
    if token > MAX_I64 then (t, None)
    else if !Renewable(t, name, owner, token, now) then (t, Some(false))
    else if until < 0 then (t, None)
    else (t.(locks := t.locks[name := t.locks[name].(until := until)]), Some(true))
  }

  function ReleaseLock(t: LockTable, name: string, owner: string, token: nat): (LockTable, Option<bool>) {
    if token > MAX_I64 then (t, None)
    else if name !in t.locks then (t, Some(true))
    else if t.locks[name].owner == owner && t.locks[name].token == token then
      (t.(locks := t.locks - {name}), Some(true))
    else (t, Some(false))
  }

  /** The name is free; every other lease and the last token are as before. */
  ghost predicate Freed(before: LockTable, name: string, after: LockTable) {
    && name !in after.locks && after.lastToken == before.lastToken
    && forall other :: other != name ==>
         (other in after.locks <==> other in before.locks)
         && (other in after.locks ==> after.locks[other] == before.locks[other])
  }

  class LockRepository {
    var table: LockTable

    constructor ()
      ensures table == LockTable(map[], 0)
    {
      table := LockTable(map[], 0);
    }

    method Acquire(name: string, owner: string, now: int, until: int) returns (r: Acquisition)
      modifies this
      ensures (table, r) == AcquireLock(old(table), name, owner, now, until)
    {
      if name in table.locks && table.locks[name].until > now && table.locks[name].owner != owner {
        return Busy(table.locks[name].until, Clamp(table.locks[name].until - now, 100, 1000));
      }
      if until < 0 { return Rejected; }
      var token;
      if name in table.locks && table.locks[name].until > now && table.locks[name].owner == owner {
        token := table.locks[name].token;
        table := table.(locks := table.locks[name := table.locks[name].(until := until)]);
      } else {
        if table.lastToken >= MAX_I64 { return Rejected; }
        token := table.lastToken + 1;
        table := table.(lastToken := token);
        table := table.(locks := table.locks[name := Lease(owner, token, until)]);
      }
      r := Acquired(token, until);
    }

    method Renew(name: string, owner: string, token: nat, now: int, until: int) returns (r: Option<bool>)
      modifies this
      ensures (table, r) == RenewLock(old(table), name, owner, token, now, until)
    {
      if token > MAX_I64 { return None; }
      if name !in table.locks || table.locks[name].owner != owner
        || table.locks[name].token != token || table.locks[name].until <= now {
        return Some(false);
      }
      if until < 0 { return None; }
      table := table.(locks := table.locks[name := table.locks[name].(until := until)]);
      r := Some(true);
    }

    method Release(name: string, owner: string, token: nat) returns (r: Option<bool>)
      modifies this
      ensures (table, r) == ReleaseLock(old(table), name, owner, token)
      ensures r == Some(true) ==> Freed(old(table), name, table)
      ensures r != Some(true) ==> table == old(table)
    {
      if token > MAX_I64 { return None; }
      var matched := name !in table.locks || (table.locks[name].owner == owner && table.locks[name].token == token);
      if matched && name in table.locks {
        table := table.(locks := table.locks - {name});
      }
      r := Some(matched);
    }
  }

  // ----- the answers, over the stored leases -----

  /**
   * An acquire is refused exactly while another owner's lease has not expired, with the time left as advice between a
   * tenth of a second and a second. The owner of an unexpired lease keeps its token, and anyone else gets the next one.
   */
  lemma {:induction false} AcquireAnswers(t: LockTable, name: string, owner: string, now: int, until: int)
    ensures var (after, r) := AcquireLock(t, name, owner, now, until);
      var held := name in t.locks && now < t.locks[name].until;
      && (r.Busy? <==> held && t.locks[name].owner != owner)
      && (r.Busy? ==> r.until == t.locks[name].until && 100 <= r.retryAfterMillis <= 1000
                      && (100 <= r.until - now <= 1000 ==> r.retryAfterMillis == r.until - now)
                      && (r.until - now > 1000 ==> r.retryAfterMillis == 1000))
      && (r.Rejected? <==> !r.Busy? && (until < 0 || (!held && t.lastToken >= MAX_I64)))
      && (r.Acquired? ==>
            && r.until == until && r.token == (if held then t.locks[name].token else t.lastToken + 1)
            && after.locks == t.locks[name := Lease(owner, r.token, until)]
            && after.lastToken == (if held then t.lastToken else r.token))
      && (!r.Acquired? ==> after == t)
  {
    if HeldBySelf(t, name, owner, now) {
      assert t.locks[name].(until := until) == Lease(owner, t.locks[name].token, until);
    }
  }

  /** A renewal succeeds exactly for the owner and token of an unexpired lease, and then only moves its deadline. */
  lemma {:induction false} RenewAnswers(t: LockTable, name: string, owner: string, token: nat, now: int, until: int)
    ensures var (after, r) := RenewLock(t, name, owner, token, now, until);
      var own := name in t.locks && t.locks[name].owner == owner && t.locks[name].token == token && now < t.locks[name].until;
      && (r == Some(true) <==> token <= MAX_I64 && own && until >= 0)
      && (r == Some(false) <==> token <= MAX_I64 && !own)
      && after == (if r == Some(true) then t.(locks := t.locks[name := Lease(owner, token, until)]) else t)
  {
    if Renewable(t, name, owner, token, now) {
      assert t.locks[name].(until := until) == Lease(owner, token, until);
    }
  }

  /**
   * A release by the owner and token of the stored lease, expired or not, is answered true and frees the name; so is one
   * of a name that is free already. Any other is refused and changes nothing.
   */
  lemma {:induction false} ReleaseAnswers(t: LockTable, name: string, owner: string, token: nat)
    ensures var (after, r) := ReleaseLock(t, name, owner, token);
      var own := name in t.locks && t.locks[name].owner == owner && t.locks[name].token == token;
      && (r == Some(true) <==> token <= MAX_I64 && (name !in t.locks || own))
      && (r == Some(false) <==> token <= MAX_I64 && name in t.locks && !own)
      && (r == Some(true) ==> Freed(t, name, after)) && (r != Some(true) ==> after == t)
  {
  }

  // ----- what clients have been promised -----

  /** A grant as its owner last heard of it, and the clock reading at which its token was issued. */
  datatype Grant = Grant(name: string, owner: string, until: int, released: bool, issued: int)

  datatype Request =
    | Acquire(name: string, owner: string, now: int, until: int)
    | Renew(name: string, owner: string, token: nat, now: int, until: int)
    | Release(name: string, owner: string, token: nat, now: int)

  /** The table, every grant by token, and the reading at which the last request was served. */
  datatype History = History(table: LockTable, grants: map<nat, Grant>, now: int)

  predicate Live(h: History, token: nat, at: int) {
    token in h.grants && !h.grants[token].released && h.grants[token].until > at
  }

  function Granted(h: History, token: nat, name: string, owner: string, now: int, until: int): Grant {
    Grant(name, owner, until, false, if token in h.grants then h.grants[token].issued else now)
  }

  function Serve(h: History, r: Request): History {
    match r
    case Acquire(name, owner, now, until) =>
      var (table, answer) := AcquireLock(h.table, name, owner, now, until);
      History(table,
              if answer.Acquired? then h.grants[answer.token := Granted(h, answer.token, name, owner, now, until)] else h.grants,
              now)
    case Renew(name, owner, token, now, until) =>
      var (table, answer) := RenewLock(h.table, name, owner, token, now, until);
      History(table,
              if answer == Some(true) && token in h.grants then h.grants[token := h.grants[token].(until := until)] else h.grants,
              now)
    case Release(name, owner, token, now) =>
      var (table, answer) := ReleaseLock(h.table, name, owner, token);
      History(table,
              if table != h.table && token in h.grants then h.grants[token := h.grants[token].(released := true)] else h.grants,
              now)
  }

  function ServeAll(h: History, requests: seq<Request>): History
    decreases |requests|
  {
    if requests == [] then h else ServeAll(Serve(h, requests[0]), requests[1..])
  }

  function Start(now: int): History { History(LockTable(map[], 0), map[], now) }

  // ----- whatever the clock does -----

  ghost predicate Held(h: History, token: nat) {
    token in h.grants && h.grants[token].name in h.table.locks && h.table.locks[h.grants[token].name].token == token
  }

  /** Every stored lease is its name's latest grant, and an unreleased latest grant is stored. */
  ghost predicate Recorded(h: History) {
    && (forall name :: name in h.table.locks ==>
          var lease := h.table.locks[name];
          && lease.token in h.grants && !h.grants[lease.token].released && h.grants[lease.token].name == name
          && h.grants[lease.token].owner == lease.owner && h.grants[lease.token].until == lease.until)
    && (forall token :: token in h.grants ==> 1 <= token <= h.table.lastToken && h.grants[token].until >= 0)
    && (forall token :: token in h.grants && h.grants[token].name in h.table.locks ==>
          token <= h.table.locks[h.grants[token].name].token)
    && h.table.lastToken <= MAX_I64
  }

  lemma {:induction false} AcquireRecorded(h: History, name: string, owner: string, now: int, until: int)
    requires Recorded(h)
    ensures Recorded(Serve(h, Acquire(name, owner, now, until)))
  {
  }

  lemma {:induction false} RenewRecorded(h: History, name: string, owner: string, token: nat, now: int, until: int)
    requires Recorded(h)
    ensures Recorded(Serve(h, Renew(name, owner, token, now, until)))
  {
  }

  lemma {:induction false} ReleaseRecorded(h: History, name: string, owner: string, token: nat, now: int)
    requires Recorded(h)
    ensures Recorded(Serve(h, Release(name, owner, token, now)))
  {
  }

  lemma {:induction false} ServeRecorded(h: History, r: Request)
    requires Recorded(h)
    ensures Recorded(Serve(h, r))
  {
    match r
    case Acquire(name, owner, now, until) => AcquireRecorded(h, name, owner, now, until);
    case Renew(name, owner, token, now, until) => RenewRecorded(h, name, owner, token, now, until);
    case Release(name, owner, token, now) => ReleaseRecorded(h, name, owner, token, now);
  }

  lemma {:induction false} ServeAllRecorded(h: History, requests: seq<Request>)
    requires Recorded(h)
    ensures Recorded(ServeAll(h, requests))
    decreases |requests|
  {
    if requests != [] {
      ServeRecorded(h, requests[0]);
      ServeAllRecorded(Serve(h, requests[0]), requests[1..]);
    }
  }

  /** Whatever the clock does, a new grant's token is larger than every token issued before, for any name. */
  lemma {:induction false} TokensIncrease(begin: int, requests: seq<Request>, name: string, owner: string, now: int,
          until: int, token: nat)
    ensures var h := ServeAll(Start(begin), requests);
      var r := AcquireLock(h.table, name, owner, now, until).1;
      r.Acquired? && !HeldBySelf(h.table, name, owner, now) && token in h.grants ==> token < r.token
  {
    ServeAllRecorded(Start(begin), requests);
  }

  /** In every run the holder of the stored lease can release it, and its grant is then over. */
  lemma {:induction false} HolderReleases(begin: int, requests: seq<Request>, name: string, now: int)
    ensures var h := ServeAll(Start(begin), requests);
      name in h.table.locks ==>
        var lease := h.table.locks[name];
        var after := Serve(h, Release(name, lease.owner, lease.token, now));
        && Freed(h.table, name, after.table)
        && lease.token in after.grants && after.grants[lease.token].released
        && forall other :: other in h.grants && other != lease.token ==> other in after.grants && after.grants[other] == h.grants[other]
  {
    ServeAllRecorded(Start(begin), requests);
    var h := ServeAll(Start(begin), requests);
    if name in h.table.locks {
      var lease := h.table.locks[name];
      ReleaseAnswers(h.table, name, lease.owner, lease.token);
      assert lease.token <= MAX_I64;
    }
  }

  /** In every run, once the holder has released a lock anyone gets it at once, at any reading, with the next token. */
  lemma {:induction false} ReleasedIsFree(begin: int, requests: seq<Request>, name: string, at: int, owner: string, now: int,
          until: int)
    ensures var h := ServeAll(Start(begin), requests);
      name in h.table.locks && until >= 0 && h.table.lastToken < MAX_I64 ==>
        var lease := h.table.locks[name];
        var free := Serve(h, Release(name, lease.owner, lease.token, at));
        var token := h.table.lastToken + 1;
        var after := Serve(free, Acquire(name, owner, now, until));
        && after.table.locks == free.table.locks[name := Lease(owner, token, until)] && after.table.lastToken == token
        && token in after.grants && after.grants[token] == Grant(name, owner, until, false, now)
  {
    ServeAllRecorded(Start(begin), requests);
    HolderReleases(begin, requests, name, at);
    var h := ServeAll(Start(begin), requests);
    if name in h.table.locks {
      var free := Serve(h, Release(name, h.table.locks[name].owner, h.table.locks[name].token, at));
      ServeRecorded(h, Release(name, h.table.locks[name].owner, h.table.locks[name].token, at));
      AcquireAnswers(free.table, name, owner, now, until);
    }
  }

  /** A later grant of the same name exists. */
  ghost predicate Superseded(h: History, token: nat, later: nat) {
    token in h.grants && later in h.grants && token < later && h.grants[token].name == h.grants[later].name
  }

  /**
   * In every state after a name was granted again, the earlier token neither extends nor deletes anything;
   * its release is refused while the name is held, and succeeds idly when it is not.
   */
  lemma {:induction false} SupersededIsPowerless(begin: int, requests: seq<Request>, token: nat, later: nat,
          owner: string, now: int, until: int)
    ensures var h := ServeAll(Start(begin), requests);
      Superseded(h, token, later) ==>
        var name := h.grants[token].name;
        && RenewLock(h.table, name, owner, token, now, until) == (h.table, Some(false))
        && ReleaseLock(h.table, name, owner, token) == (h.table, Some(name !in h.table.locks))
  {
    ServeAllRecorded(Start(begin), requests);
  }

  /** No request changes a superseded grant any more. */
  lemma {:induction false} SupersededIsFrozen(begin: int, requests: seq<Request>, r: Request, token: nat, later: nat)
    ensures var h := ServeAll(Start(begin), requests);
      Superseded(h, token, later) ==> token in Serve(h, r).grants && Serve(h, r).grants[token] == h.grants[token]
  {
    ServeAllRecorded(Start(begin), requests);
  }

  // ----- exclusion from the largest reading on -----

  /** Whatever is live at `high` is stored. */
  ghost predicate StoredAt(h: History, high: int) {
    Recorded(h) && forall token :: Live(h, token, high) ==> Held(h, token)
  }

  lemma {:induction false} AcquireStored(h: History, name: string, owner: string, now: int, until: int, high: int)
    requires StoredAt(h, high) && now <= high
    ensures StoredAt(Serve(h, Acquire(name, owner, now, until)), high)
  {
    var after := Serve(h, Acquire(name, owner, now, until));
    ServeRecorded(h, Acquire(name, owner, now, until));
    forall token | Live(after, token, high) ensures Held(after, token) {
      if token in h.grants && after.grants[token] == h.grants[token] { assert Live(h, token, high); }
    }
  }

  lemma {:induction false} RenewStored(h: History, name: string, owner: string, token: nat, now: int, until: int, high: int)
    requires StoredAt(h, high)
    ensures StoredAt(Serve(h, Renew(name, owner, token, now, until)), high)
  {
    var after := Serve(h, Renew(name, owner, token, now, until));
    ServeRecorded(h, Renew(name, owner, token, now, until));
    forall t | Live(after, t, high) ensures Held(after, t) {
      if t in h.grants && after.grants[t] == h.grants[t] { assert Live(h, t, high); }
    }
  }

  lemma {:induction false} ReleaseStored(h: History, name: string, owner: string, token: nat, now: int, high: int)
    requires StoredAt(h, high)
    ensures StoredAt(Serve(h, Release(name, owner, token, now)), high)
  {
    var after := Serve(h, Release(name, owner, token, now));
    ServeRecorded(h, Release(name, owner, token, now));
    forall t | Live(after, t, high) ensures Held(after, t) {
      assert Live(h, t, high);
    }
  }

  /** No request was served at a reading past `high`. */
  predicate ServedBy(requests: seq<Request>, high: int) {
    forall i :: 0 <= i < |requests| ==> requests[i].now <= high
  }

  lemma {:induction false} ServeAllStored(h: History, requests: seq<Request>, high: int)
    requires StoredAt(h, high) && ServedBy(requests, high)
    ensures StoredAt(ServeAll(h, requests), high)
    decreases |requests|
  {
    if requests != [] {
      match requests[0] {
        case Acquire(name, owner, now, until) => AcquireStored(h, name, owner, now, until, high);
        case Renew(name, owner, token, now, until) => RenewStored(h, name, owner, token, now, until, high);
        case Release(name, owner, token, now) => ReleaseStored(h, name, owner, token, now, high);
      }
      ServeAllStored(Serve(h, requests[0]), requests[1..], high);
    }
  }

  /** At most one live grant of each name. */
  ghost predicate Exclusive(h: History, at: int) {
    forall a, b :: Live(h, a, at) && Live(h, b, at) && h.grants[a].name == h.grants[b].name ==> a == b
  }

  lemma {:induction false} StoredIsExclusive(h: History, at: int)
    requires StoredAt(h, at)
    ensures Exclusive(h, at)
  {
    forall a, b | Live(h, a, at) && Live(h, b, at) && h.grants[a].name == h.grants[b].name ensures a == b {
      assert Held(h, a) && Held(h, b);
    }
  }

  /** Whatever order the readings come in, exclusion holds at every time no earlier than the largest of them. */
  lemma {:induction false} ExclusivePastReadings(begin: int, requests: seq<Request>, at: int)
    requires ServedBy(requests, at)
    ensures Exclusive(ServeAll(Start(begin), requests), at)
  {
    ServeAllStored(Start(begin), requests, at);
    StoredIsExclusive(ServeAll(Start(begin), requests), at);
  }

  /** Each request is served no earlier than the one before it. */
  predicate ClockForward(now: int, requests: seq<Request>)
    decreases |requests|
  {
    requests == [] || (now <= requests[0].now && ClockForward(requests[0].now, requests[1..]))
  }

  lemma {:induction false} ForwardIsServedBy(h: History, requests: seq<Request>)
    requires ClockForward(h.now, requests)
    ensures h.now <= ServeAll(h, requests).now && ServedBy(requests, ServeAll(h, requests).now)
    decreases |requests|
  {
    if requests != [] {
      var next, rest := Serve(h, requests[0]), requests[1..];
      ForwardIsServedBy(next, rest);
      assert forall i :: 0 < i < |requests| ==> requests[i] == rest[i - 1];
    }
  }

  /** With a clock that never goes back, exclusion holds from the last request on. */
  lemma {:induction false} MutualExclusion(begin: int, requests: seq<Request>, at: int)
    requires ClockForward(begin, requests)
    ensures var h := ServeAll(Start(begin), requests); at >= h.now ==> Exclusive(h, at)
  {
    ForwardIsServedBy(Start(begin), requests);
    if at >= ServeAll(Start(begin), requests).now { ExclusivePastReadings(begin, requests, at); }
  }

  // ----- and before it -----

  /** Deadlines are never negative, so with negative readings no lease expires and every unreleased grant is stored. */
  lemma {:induction false} NegativeReadings(begin: int, requests: seq<Request>, at: int)
    requires ServedBy(requests, -1)
    ensures Exclusive(ServeAll(Start(begin), requests), at)
  {
    var h := ServeAll(Start(begin), requests);
    ServeAllStored(Start(begin), requests, -1);
    forall a, b | Live(h, a, at) && Live(h, b, at) && h.grants[a].name == h.grants[b].name ensures a == b {
      assert Live(h, a, -1) && Live(h, b, -1);
      assert Held(h, a) && Held(h, b);
    }
  }

  lemma {:induction false} TwoRequests(h: History, first: Request, second: Request)
    ensures ServeAll(h, [first, second]) == Serve(Serve(h, first), second)
  {
    assert [first, second][1..] == [second] && [second][1..] == [];
    assert ServeAll(Serve(h, first), [second]) == Serve(Serve(h, first), second);
  }

  /** A lock taken over at its deadline `t` has two live grants at every earlier time. */
  lemma {:induction false} TakenOver(begin: int, t: int, at: int)
    requires t >= 0 && at < t
    ensures var requests := [Acquire("lock", "a", t - MIN_LEASE, t), Acquire("lock", "b", t, t + MIN_LEASE)];
      && ServedBy(requests, t)
      && var h := ServeAll(Start(begin), requests); Live(h, 1, at) && Live(h, 2, at) && h.grants[1].name == h.grants[2].name
  {
    var first, second := Acquire("lock", "a", t - MIN_LEASE, t), Acquire("lock", "b", t, t + MIN_LEASE);
    TwoRequests(Start(begin), first, second);
    var h := Serve(Start(begin), first);
    assert h.table == LockTable(map["lock" := Lease("a", 1, t)], 1);
    assert h.grants == map[1 := Grant("lock", "a", t, false, t - MIN_LEASE)];
  }

  /**
   * The exact bound: runs whose readings are at most `t` are all exclusive at `at` if and only if `t` is not past
   * `at`, or no lease can expire at all.
   */
  lemma {:induction false} ExclusiveExactly(begin: int, at: int, t: int)
    ensures (forall requests :: ServedBy(requests, t) ==> Exclusive(ServeAll(Start(begin), requests), at))
            <==> t <= at || t < 0
  {
    if t <= at || t < 0 {
      forall requests | ServedBy(requests, t) ensures Exclusive(ServeAll(Start(begin), requests), at) {
        if t < 0 {
          assert ServedBy(requests, -1);
          NegativeReadings(begin, requests, at);
        } else {
          assert ServedBy(requests, at);
          ExclusivePastReadings(begin, requests, at);
        }
      }
    } else {
      TakenOver(begin, t, at);
      var requests := [Acquire("lock", "a", t - MIN_LEASE, t), Acquire("lock", "b", t, t + MIN_LEASE)];
      assert ServedBy(requests, t) && !Exclusive(ServeAll(Start(begin), requests), at);
    }
  }

  /** `later` is the next grant of the same name. */
  ghost predicate Successor(h: History, token: nat, later: nat) {
    && Superseded(h, token, later)
    && forall t :: t in h.grants && token < t < later ==> h.grants[t].name != h.grants[token].name
  }

  /** An unreleased grant is the stored one, or its deadline had passed when its successor was issued. */
  ghost predicate Expired(h: History) {
    && Recorded(h)
    && (forall token :: token in h.grants && !h.grants[token].released ==>
          Held(h, token) || exists later :: Superseded(h, token, later))
    && (forall token, later :: Successor(h, token, later) && !h.grants[token].released ==>
          h.grants[token].until <= h.grants[later].issued)
  }

  lemma {:induction false} SupersededStays(h: History, r: Request, token: nat, later: nat)
    requires Recorded(h) && Superseded(h, token, later)
    ensures var after := Serve(h, r); Superseded(after, token, later) && after.grants[token] == h.grants[token]
  {
  }

  lemma {:induction false} SuccessorWas(h: History, r: Request, token: nat, later: nat)
    requires Recorded(h) && Successor(Serve(h, r), token, later) && later in h.grants
    ensures Successor(h, token, later) && Serve(h, r).grants[later].issued == h.grants[later].issued
  {
    var after := Serve(h, r);
    assert token in h.grants && h.grants[token].name == after.grants[token].name;
    assert forall t :: t in h.grants ==> t in after.grants && after.grants[t].name == h.grants[t].name;
  }

  lemma {:induction false} IssueExpired(h: History, name: string, owner: string, now: int, until: int, token: nat, later: nat)
    requires Expired(h)
    requires var after := Serve(h, Acquire(name, owner, now, until));
      later !in h.grants && Successor(after, token, later) && !after.grants[token].released
    ensures var after := Serve(h, Acquire(name, owner, now, until)); after.grants[token].until <= after.grants[later].issued
  {
    var after := Serve(h, Acquire(name, owner, now, until));
    assert token in h.grants && after.grants[token] == h.grants[token];
    assert forall other :: other in h.grants ==> other < later && after.grants[other].name == h.grants[other].name;
    assert Held(h, token);
  }

  lemma {:induction false} ServeExpired(h: History, r: Request)
    requires Expired(h)
    ensures Expired(Serve(h, r))
  {
    var after := Serve(h, r);
    ServeRecorded(h, r);
    forall token | token in after.grants && !after.grants[token].released
      ensures Held(after, token) || exists later :: Superseded(after, token, later)
    {
      if later :| Superseded(h, token, later) {
        SupersededStays(h, r, token, later);
      } else if token in h.grants {
        KeptOrReplaced(h, r, token);
      }
    }
    forall token, later | Successor(after, token, later) && !after.grants[token].released
      ensures after.grants[token].until <= after.grants[later].issued
    {
      if later in h.grants {
        SuccessorWas(h, r, token, later);
        SupersededStays(h, r, token, later);
      } else {
        IssueExpired(h, r.name, r.owner, r.now, r.until, token, later);
      }
    }
  }

  lemma {:induction false} KeptOrReplaced(h: History, r: Request, token: nat)
    requires Recorded(h) && Held(h, token) && !Serve(h, r).grants[token].released
    ensures Held(Serve(h, r), token) || Superseded(Serve(h, r), token, Serve(h, r).table.lastToken)
  {
  }

  lemma {:induction false} ServeAllExpired(h: History, requests: seq<Request>)
    requires Expired(h)
    ensures Expired(ServeAll(h, requests))
    decreases |requests|
  {
    if requests != [] {
      ServeExpired(h, requests[0]);
      ServeAllExpired(Serve(h, requests[0]), requests[1..]);
    }
  }

  /**
   * In every run: an unreleased grant that has a successor is live exactly before its frozen deadline, which is no later
   * than the reading at which the successor was issued.
   */
  lemma {:induction false} SupersededIsLiveBefore(begin: int, requests: seq<Request>, token: nat, later: nat, at: int)
    ensures var h := ServeAll(Start(begin), requests);
      Successor(h, token, later) && !h.grants[token].released ==>
        && (Live(h, token, at) <==> at < h.grants[token].until)
        && h.grants[token].until <= h.grants[later].issued
  {
    ServeAllExpired(Start(begin), requests);
  }

  /** A renewal served at an earlier reading than the takeover: at that reading both grants are live. */
  lemma {:induction false} RollbackBreaksExclusion()
    ensures var requests := [Acquire("lock", "a", 0, 2000), Acquire("lock", "b", 2000, 4000), Renew("lock", "b", 2, 1500, 3500)];
      var h := ServeAll(Start(0), requests);
      h.now == 1500 && h.grants[2].until == 3500 && Live(h, 1, h.now) && Live(h, 2, h.now) && h.grants[1].name == h.grants[2].name
  {
    var first, second, third := Acquire("lock", "a", 0, 2000), Acquire("lock", "b", 2000, 4000), Renew("lock", "b", 2, 1500, 3500);
    var h1 := Serve(Start(0), first);
    assert h1.table == LockTable(map["lock" := Lease("a", 1, 2000)], 1);
    var h2 := Serve(h1, second);
    assert h2.table == LockTable(map["lock" := Lease("b", 2, 4000)], 2);
    assert [first, second, third][1..] == [second, third];
    TwoRequests(h1, second, third);
  }
}
