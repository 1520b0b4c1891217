/** The `ExclusiveLock` class of lib/exclusive-lock.js as a lease state machine.

    Each operation is specified by a pure step function over the instance's three
    mutable fields (`got_lock`, `is_refreshing`, and the refresh timer, reduced to
    whether it is running), the shared store, and a delivery outcome for the store
    command it issues. A step also lists, in order, the store commands and timer
    operations it performs. The class `ExclusiveLock` updates its fields and the
    shared `Store` object in place and is proved to follow the step functions.

    `refresh()` fires its store command and returns before the reply arrives; it is
    split into `RefreshStart` (set the flag, issue `PEXPIRE`) and `RefreshSettle`
    (the `finally` that clears the flag). */
module ExclusiveLocking {
  import opened Wrappers
  import opened LockOptions
  import opened RedisStore

  datatype LockState = LockState(gotLock: bool, isRefreshing: bool, timerActive: bool)

  /** The state right after construction. */
  const Unheld := LockState(false, false, false)

  /** The effects an operation has outside the instance, in the order it has them. */
  datatype Call =
    | SetCall(key: string, value: string, ttlMs: int)
    | PExpireCall(key: string, ms: int)
    | DelCall(key: string)
    | GetCall(key: string)
    | StartTimer(periodMs: int)
    | StopTimer

  /** The instance state, the store and the effects after an operation, and what the
      operation returns (or rejects with). */
  datatype Step<R> = Step(lock: LockState, entries: Entries, calls: seq<Call>, reply: R)

  /** A refresh timer runs only while the lock is held and auto-refresh is on. */
  predicate Coherent(cfg: Config, l: LockState) {
    l.timerActive ==> l.gotLock && cfg.autoRefresh
  }

  /** `acquire()`, lines 86-112. */
  function AcquireStep(cfg: Config, l: LockState, m: Entries, d: Delivery): (s: Step<Result<bool, StoreError>>)
    // a second call while held does nothing and reports success
    ensures l.gotLock ==> s == Step(l, m, [], Success(true))
    // otherwise one conditional write, whose reply alone decides ownership
    ensures !l.gotLock ==>
              && |s.calls| >= 1
              && s.calls[0] == SetCall(cfg.lockName, cfg.lockContents, cfg.lockTtlMs)
              && s.lock.gotLock == (s.reply == Success(true))
              && (s.reply == Success(true) <==> d.Delivered? && cfg.lockTtlMs > 0 && cfg.lockName !in m)
    // a won write holds the contents with the full time to live, and starts the timer
    // exactly when auto-refresh is on
    ensures !l.gotLock && s.lock.gotLock ==>
              && s.entries == m[cfg.lockName := Entry(cfg.lockContents, cfg.lockTtlMs)]
              && s.calls == [SetCall(cfg.lockName, cfg.lockContents, cfg.lockTtlMs)]
                            + (if cfg.autoRefresh then [StartTimer(cfg.lockRefreshMs)] else [])
    ensures Coherent(cfg, l) && !l.gotLock ==> s.lock.timerActive == (s.lock.gotLock && cfg.autoRefresh)
    // a taken key leaves everything as it was
    ensures !l.gotLock && cfg.lockName in m ==> s.entries == m && s.lock == l && s.reply != Success(true)
    // a losing write is the single store call, and the store is as the write left it
    ensures !l.gotLock && !s.lock.gotLock ==> s.calls == [SetCall(cfg.lockName, cfg.lockContents, cfg.lockTtlMs)]
    ensures !l.gotLock ==> s.entries == SetIfAbsent(m, cfg.lockName, cfg.lockContents, cfg.lockTtlMs, d).entries
    // a store error is not swallowed: it rejects, and the instance is unchanged
    ensures !l.gotLock ==> (s.reply.Failure? <==> d.Lost? || cfg.lockTtlMs <= 0)
    ensures s.reply.Failure? ==> s.lock == l
    ensures s.lock.isRefreshing == l.isRefreshing
    ensures Coherent(cfg, l) ==> Coherent(cfg, s.lock)
  {
    if l.gotLock then Step(l, m, [], Success(true))
    else
      var write := SetIfAbsent(m, cfg.lockName, cfg.lockContents, cfg.lockTtlMs, d);
      var setCall := SetCall(cfg.lockName, cfg.lockContents, cfg.lockTtlMs);
      match write.result
      case Failure(e) => Step(l, write.entries, [setCall], Failure(e))
      case Success(created) =>
        if created then
          var timer := if cfg.autoRefresh then [StartTimer(cfg.lockRefreshMs)] else [];
          Step(l.(gotLock := true, timerActive := cfg.autoRefresh || l.timerActive),
               write.entries, [setCall] + timer, Success(true))
        else Step(l, write.entries, [setCall], Success(l.gotLock))
  }

  /** `refresh()` up to the moment its `PEXPIRE` is sent, lines 125-130. */
  function RefreshStartStep(cfg: Config, l: LockState, m: Entries, d: Delivery): (s: Step<()>)
    // not held, or a refresh still in flight: no store call, nothing changes
    ensures !l.gotLock || l.isRefreshing ==> s == Step(l, m, [], ())
    // otherwise the flag goes up and the expiry is reset to the refresh interval
    ensures l.gotLock && !l.isRefreshing ==>
              && s.lock == l.(isRefreshing := true)
              && s.calls == [PExpireCall(cfg.lockName, cfg.lockRefreshMs)]
    ensures l.gotLock && !l.isRefreshing && d.Executed() && cfg.lockName in m && cfg.lockRefreshMs > 0 ==>
              s.entries == m[cfg.lockName := Entry(m[cfg.lockName].value, cfg.lockRefreshMs)]
    ensures l.gotLock && !l.isRefreshing ==>
              s.entries == ResetExpiry(m, cfg.lockName, cfg.lockRefreshMs, d).entries
    ensures !d.Executed() ==> s.entries == m
    ensures s.entries.Keys <= m.Keys
    ensures s.lock.gotLock == l.gotLock && s.lock.timerActive == l.timerActive
  {
    if !l.gotLock || l.isRefreshing then Step(l, m, [], ())
    else
      var reset := ResetExpiry(m, cfg.lockName, cfg.lockRefreshMs, d);
      Step(l.(isRefreshing := true), reset.entries, [PExpireCall(cfg.lockName, cfg.lockRefreshMs)], ())
  }

  /** The `finally` of `refresh()`, lines 131-139: the reply arrived (`succeeded`) or
      the promise was rejected; either way only the in-flight flag is cleared. */
  function RefreshSettleStep(l: LockState, succeeded: bool): (l': LockState)
    ensures !l'.isRefreshing
    ensures l'.gotLock == l.gotLock && l'.timerActive == l.timerActive
  {
    l.(isRefreshing := false)
  }

  /** `release()`, lines 142-154. */
  function ReleaseStep(cfg: Config, l: LockState, m: Entries, d: Delivery): (s: Step<()>)
    // not held: no store call, nothing changes
    ensures !l.gotLock ==> s == Step(l, m, [], ())
    // held: the timer is stopped before the key is deleted
    ensures l.gotLock ==> s.calls == [StopTimer, DelCall(cfg.lockName)]
    // it always ends not held with no timer, even when the delete fails
    ensures Coherent(cfg, l) ==> !s.lock.gotLock && !s.lock.timerActive
    ensures l.gotLock && d.Executed() ==> s.entries == m - {cfg.lockName}
    ensures !d.Executed() ==> s.entries == m
    ensures s.lock.isRefreshing == l.isRefreshing
  {
    if !l.gotLock then Step(l, m, [], ())
    else
      var stopped := l.(timerActive := false);
      var deleted := Delete(m, cfg.lockName, d);
      Step(stopped.(gotLock := false), deleted.entries, [StopTimer, DelCall(cfg.lockName)], ())
  }

  /** What `inspect()` resolves to: `undefined` when not held, the parsed contents, or
      the raw stored text (`null` for a missing key) when it cannot be parsed. */
  datatype Inspection<V> = Nothing | Parsed(value: V) | Raw(raw: Option<string>)

  /** `JSON.parse(raw, jsonParseFilter)` where `raw` may be `null`, which `JSON.parse`
      reads as the text "null". */
  function ParseRaw<V>(raw: Option<string>, parse: string -> Option<V>): (r: Inspection<V>)
    ensures parse(raw.GetOr("null")).Some? ==> r == Parsed(parse(raw.GetOr("null")).value)
    ensures parse(raw.GetOr("null")).None? ==> r == Raw(raw)
  {
    match parse(raw.GetOr("null"))
    case Some(v) => Parsed(v)
    case None => Raw(raw)
  }

  /** `inspect()`, lines 114-123; `parse` stands for `JSON.parse` with the reviver. */
  function InspectStep<V>(cfg: Config, l: LockState, m: Entries, d: Delivery, parse: string -> Option<V>)
    : (s: Step<Result<Inspection<V>, StoreError>>)
    ensures s.lock == l && s.entries == m
    ensures !l.gotLock ==> s.calls == [] && s.reply == Success(Nothing)
    ensures l.gotLock ==> s.calls == [GetCall(cfg.lockName)]
    ensures l.gotLock ==> (s.reply.Failure? <==> d.Lost?)
    ensures l.gotLock && d.Delivered? && cfg.lockName in m ==>
              s.reply == Success(ParseRaw(Some(m[cfg.lockName].value), parse))
    ensures l.gotLock && d.Delivered? && cfg.lockName !in m ==> s.reply == Success(ParseRaw(None, parse))
  {
    if !l.gotLock then Step(l, m, [], Success(Nothing))
    else
      var reply := match Lookup(m, cfg.lockName, d)
        case Failure(e) => Failure(e)
        case Success(raw) => Success(ParseRaw(raw, parse));
      Step(l, m, [GetCall(cfg.lockName)], reply)
  }

  class ExclusiveLock {
    const cfg: Config
    const store: Store
    var gotLock: bool
    var isRefreshing: bool
    var timerActive: bool
    /** The store commands and timer operations this instance has performed. */
    ghost var calls: seq<Call>

    function State(): LockState
      reads this
    {
      LockState(gotLock, isRefreshing, timerActive)
    }

    ghost predicate Valid()
      reads this
    {
      WellFormed(cfg) && Coherent(cfg, State())
    }

    /** Field initialisation after the checks of `Configure` passed, lines 68-79. */
    constructor (cfg: Config, store: Store)
      requires WellFormed(cfg)
      ensures this.cfg == cfg && this.store == store
      ensures State() == Unheld && calls == [] && Valid()
    {
      this.cfg := cfg;
      this.store := store;
      gotLock, isRefreshing, timerActive := false, false, false;
      calls := [];
    }

    method Acquire(d: Delivery) returns (r: Result<bool, StoreError>)
      requires Valid()
      modifies this, store
      ensures Valid()
      ensures var s := AcquireStep(cfg, old(State()), old(store.entries), d);
              State() == s.lock && store.entries == s.entries && calls == old(calls) + s.calls && r == s.reply
    {
      if gotLock {
        return Success(true);
      }
      calls := calls + [SetCall(cfg.lockName, cfg.lockContents, cfg.lockTtlMs)];
      r := store.SetNxPx(cfg.lockName, cfg.lockContents, cfg.lockTtlMs, d);
      if r.Success? {
        if r.value {
          gotLock := true;
          if cfg.autoRefresh {
            timerActive := true;
            calls := calls + [StartTimer(cfg.lockRefreshMs)];
          }
        }
        r := Success(gotLock);
      }
    }

    method RefreshStart(d: Delivery)
      requires Valid()
      modifies this, store
      ensures Valid()
      ensures var s := RefreshStartStep(cfg, old(State()), old(store.entries), d);
              State() == s.lock && store.entries == s.entries && calls == old(calls) + s.calls
    {
      if !gotLock {
        return;
      }
      if isRefreshing {
        return;
      }
      isRefreshing := true;
      calls := calls + [PExpireCall(cfg.lockName, cfg.lockRefreshMs)];
      var _ := store.PExpire(cfg.lockName, cfg.lockRefreshMs, d);
    }

    method RefreshSettle(succeeded: bool)
      requires Valid()
      modifies this
      ensures Valid()
      ensures State() == RefreshSettleStep(old(State()), succeeded) && calls == old(calls)
    {
      isRefreshing := false;
    }

    method Release(d: Delivery)
      requires Valid()
      modifies this, store
      ensures Valid()
      ensures var s := ReleaseStep(cfg, old(State()), old(store.entries), d);
              State() == s.lock && store.entries == s.entries && calls == old(calls) + s.calls
    {
      if !gotLock {
        return;
      }
      timerActive := false;
      calls := calls + [StopTimer];
      calls := calls + [DelCall(cfg.lockName)];
      var _ := store.Del(cfg.lockName, d);  // a failed delete is only logged
      gotLock := false;
    }

    method Inspect<V>(d: Delivery, parse: string -> Option<V>) returns (r: Result<Inspection<V>, StoreError>)
      requires Valid()
      modifies this
      ensures State() == old(State()) && Valid()
      ensures var s := InspectStep(cfg, old(State()), store.entries, d, parse);
              r == s.reply && calls == old(calls) + s.calls
    {
      if !gotLock {
        return Success(Nothing);
      }
      calls := calls + [GetCall(cfg.lockName)];
      var raw := store.Get(cfg.lockName, d);
      match raw
      case Failure(e) => r := Failure(e);
      case Success(text) => r := Success(ParseRaw(text, parse));
    }
  }

  /** `new ExclusiveLock(opts)` with `store` as `opts.cache_connection`: the checks of
      `Configure`, then a fresh, unheld instance, or the error thrown. */
  method New(opts: Options, store: Store) returns (r: Result<ExclusiveLock, ConfigError>)
    ensures Configure(opts).Failure? ==> r == Failure(Configure(opts).error)
    ensures Configure(opts).Success? ==>
              && r.Success? && fresh(r.value)
              && r.value.cfg == Configure(opts).value && r.value.store == store
              && r.value.State() == Unheld && r.value.calls == [] && r.value.Valid()
  {
    var cfg := Configure(opts);
    if cfg.Failure? {
      return Failure(cfg.error);
    }
    var lock := new ExclusiveLock(cfg.value, store);
    return Success(lock);
  }

  /** Two unheld instances on one store and one key, with the key free, acquire one
      after the other: the first wins and may run its timer, the second loses and
      has none. */
  method ContendedAcquire(first: ExclusiveLock, second: ExclusiveLock, d1: Delivery, d2: Delivery)
      returns (r1: Result<bool, StoreError>, r2: Result<bool, StoreError>)
    requires first != second && first.store == second.store
    requires first.cfg.lockName == second.cfg.lockName && first.cfg.lockTtlMs > 0
    requires first.Valid() && second.Valid() && !first.gotLock && !second.gotLock
    requires first.cfg.lockName !in first.store.entries
    requires d1 == Delivered
    modifies first, second, first.store
    ensures r1 == Success(true) && first.gotLock && first.timerActive == first.cfg.autoRefresh
    ensures r2 != Success(true) && !second.gotLock && !second.timerActive
    ensures first.cfg.lockName in first.store.entries
  {
    r1 := first.Acquire(d1);
    r2 := second.Acquire(d2);
  }
}
