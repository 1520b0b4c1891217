/** Properties of one `ExclusiveLock` across several of its operations. */
module LeaseProperties {
  import opened Wrappers
  import opened LockOptions
  import opened RedisStore
  import opened ExclusiveLocking

  /** Calling `acquire()` twice: the second call writes nothing and reports the
      lock as held, so only one store write is ever issued. */
  lemma AcquireTwiceWritesOnce(cfg: Config, m: Entries, d1: Delivery, d2: Delivery)
    requires cfg.lockTtlMs > 0 && cfg.lockName !in m && d1 == Delivered
    ensures var first := AcquireStep(cfg, Unheld, m, d1);
            var second := AcquireStep(cfg, first.lock, first.entries, d2);
            && first.reply == Success(true) && second.reply == Success(true)
            && second.calls == [] && second.lock == first.lock && second.entries == first.entries
  {
  }

  /** Acquiring a free key and releasing it puts the store and the instance back as
      they were. */
  lemma AcquireReleaseRoundTrip(cfg: Config, m: Entries)
    requires cfg.lockTtlMs > 0 && cfg.lockName !in m
    ensures var acquired := AcquireStep(cfg, Unheld, m, Delivered);
            var released := ReleaseStep(cfg, acquired.lock, acquired.entries, Delivered);
            released.entries == m && released.lock == Unheld
  {
    var acquired := AcquireStep(cfg, Unheld, m, Delivered);
    assert acquired.entries == m[cfg.lockName := Entry(cfg.lockContents, cfg.lockTtlMs)];
    assert acquired.entries - {cfg.lockName} == m;
  }

  /** An instance releases the key; another instance (or the same one reconfigured)
      with different contents acquires it and inspects it: it sees its own
      contents, not the stale ones. */
  lemma ReacquireSeesNewContents<V>(c1: Config, c2: Config, m: Entries, parse: string -> Option<V>)
    requires c1.lockName == c2.lockName && c1.lockTtlMs > 0 && c2.lockTtlMs > 0
    requires c1.lockName !in m
    ensures var a1 := AcquireStep(c1, Unheld, m, Delivered);
            var r1 := ReleaseStep(c1, a1.lock, a1.entries, Delivered);
            var a2 := AcquireStep(c2, r1.lock, r1.entries, Delivered);
            var seen := InspectStep(c2, a2.lock, a2.entries, Delivered, parse);
            && a2.reply == Success(true)
            && seen.reply == Success(ParseRaw(Some(c2.lockContents), parse))
  {
    AcquireReleaseRoundTrip(c1, m);
  }

  /** Inspecting the lock it holds, an instance reads back the contents it wrote: the
      parsed value when they parse, the raw text otherwise. */
  lemma InspectReadsOwnContents<V>(cfg: Config, m: Entries, parse: string -> Option<V>)
    requires cfg.lockTtlMs > 0 && cfg.lockName !in m
    ensures var a := AcquireStep(cfg, Unheld, m, Delivered);
            var seen := InspectStep(cfg, a.lock, a.entries, Delivered, parse);
            && (parse(cfg.lockContents).Some? ==> seen.reply == Success(Parsed(parse(cfg.lockContents).value)))
            && (parse(cfg.lockContents).None? ==> seen.reply == Success(Raw(Some(cfg.lockContents))))
  {
  }

  /** A fresh lease outlives the first refresh period by at least the required
      margin: after `acquire()` the key survives any wait shorter than
      `lock_refresh_ms + 500`. */
  lemma FirstPeriodHasMargin(cfg: Config, m: Entries, waitMs: nat)
    requires WellFormed(cfg) && cfg.lockTtlMs > 0 && cfg.lockName !in m
    requires waitMs < cfg.lockRefreshMs + RequiredMinMsDiff
    ensures var a := AcquireStep(cfg, Unheld, m, Delivered);
            cfg.lockName in RedisStore.Elapse(a.entries, waitMs)
  {
  }

  /** A refresh resets the remaining time to `lock_refresh_ms`, the timer's own
      period: the key survives any shorter wait and is gone when the next tick is
      due, so after the first refresh no margin is left. */
  lemma RefreshLeavesNoMargin(cfg: Config, l: LockState, m: Entries, waitMs: nat)
    requires l.gotLock && !l.isRefreshing && cfg.lockName in m && cfg.lockRefreshMs > 0
    ensures var s := RefreshStartStep(cfg, l, m, Delivered);
            && s.entries[cfg.lockName].ttlMs == cfg.lockRefreshMs
            && (cfg.lockName in RedisStore.Elapse(s.entries, waitMs) <==> waitMs < cfg.lockRefreshMs)
  {
  }

  /** A refresh issued while one is in flight is dropped; the flag stays up until the
      first settles, and it comes down whether that refresh succeeded or failed,
      leaving ownership alone. */
  lemma OverlappingRefreshIsDropped(cfg: Config, l: LockState, m: Entries, d1: Delivery, d2: Delivery, ok: bool)
    requires l.gotLock && !l.isRefreshing
    ensures var s1 := RefreshStartStep(cfg, l, m, d1);
            var s2 := RefreshStartStep(cfg, s1.lock, s1.entries, d2);
            var settled := RefreshSettleStep(s2.lock, ok);
            && s2.calls == [] && s2.lock.isRefreshing && s2.entries == s1.entries
            && settled == l
  {
  }

  /** A failed delete is swallowed: the instance still ends unheld with no timer, and
      the key stays in the store until it expires. */
  lemma FailedReleaseStillUnholds(cfg: Config, l: LockState, m: Entries)
    requires Coherent(cfg, l) && l.gotLock
    ensures var s := ReleaseStep(cfg, l, m, Lost(false));
            && !s.lock.gotLock && !s.lock.timerActive
            && s.entries == m
            && s.calls == [StopTimer, DelCall(cfg.lockName)]
  {
  }
}
