/** Two `ExclusiveLock` instances with the same key acting on one shared store, in
    any interleaving of their operations and of the passing of time. Exclusivity
    rests only on the store's atomic set-if-absent: at most one instance holds the
    lock, and whoever holds it has its key in the store, as long as
      - both refresh intervals are positive (a `PEXPIRE` with a non-positive time
        deletes the key while its holder still holds it), and
      - no held key runs out of time (the lease risk every lease-based lock has).
    The counterexamples at the end show that neither condition can be dropped. */
module MutualExclusion {
  import opened LockOptions
  import opened RedisStore
  import opened ExclusiveLocking

  datatype Who = First | Second

  datatype Action =
    | DoAcquire(who: Who, d: Delivery)
    | DoRefreshStart(who: Who, d: Delivery)
    | DoRefreshSettle(who: Who, succeeded: bool)
    | DoRelease(who: Who, d: Delivery)
    | Wait(ms: nat)

  datatype World = World(first: LockState, second: LockState, entries: Entries)

  /** One action of either instance, or time passing. */
  function Apply(c1: Config, c2: Config, w: World, a: Action): World {
    match a
    case DoAcquire(who, d) =>
      if who == First then
        var s := AcquireStep(c1, w.first, w.entries, d); w.(first := s.lock, entries := s.entries)
      else
        var s := AcquireStep(c2, w.second, w.entries, d); w.(second := s.lock, entries := s.entries)
    case DoRefreshStart(who, d) =>
      if who == First then
        var s := RefreshStartStep(c1, w.first, w.entries, d); w.(first := s.lock, entries := s.entries)
      else
        var s := RefreshStartStep(c2, w.second, w.entries, d); w.(second := s.lock, entries := s.entries)
    case DoRefreshSettle(who, ok) =>
      if who == First then w.(first := RefreshSettleStep(w.first, ok))
      else w.(second := RefreshSettleStep(w.second, ok))
    case DoRelease(who, d) =>
      if who == First then
        var s := ReleaseStep(c1, w.first, w.entries, d); w.(first := s.lock, entries := s.entries)
      else
        var s := ReleaseStep(c2, w.second, w.entries, d); w.(second := s.lock, entries := s.entries)
    case Wait(ms) => w.(entries := Elapse(w.entries, ms))
  }

  /** A schedule of actions, applied in order. */
  function Run(c1: Config, c2: Config, w: World, acts: seq<Action>): World
    decreases |acts|
  {
    if acts == [] then w
    else Apply(c1, c2, Run(c1, c2, w, acts[..|acts| - 1]), acts[|acts| - 1])
  }

  /** At most one holder, and a holder's key is in the store. */
  predicate Exclusive(key: string, w: World) {
    && !(w.first.gotLock && w.second.gotLock)
    && (w.first.gotLock || w.second.gotLock ==> key in w.entries)
  }

  /** The action is not a stretch of time long enough to expire a held key. */
  predicate NoLapse(key: string, w: World, a: Action) {
    a.Wait? && (w.first.gotLock || w.second.gotLock) ==>
      key in w.entries && w.entries[key].ttlMs > a.ms
  }

  /** No action of the schedule lets a held key expire. */
  predicate LapseFree(c1: Config, c2: Config, w: World, acts: seq<Action>)
    decreases |acts|
  {
    acts == [] ||
      (LapseFree(c1, c2, w, acts[..|acts| - 1])
       && NoLapse(c1.lockName, Run(c1, c2, w, acts[..|acts| - 1]), acts[|acts| - 1]))
  }

  /** The two instances share a key and keep their key alive when they refresh. */
  predicate Compatible(c1: Config, c2: Config) {
    c1.lockName == c2.lockName && c1.lockRefreshMs > 0 && c2.lockRefreshMs > 0
  }

  lemma ApplyKeepsExclusion(c1: Config, c2: Config, w: World, a: Action)
    requires Compatible(c1, c2)
    requires Exclusive(c1.lockName, w) && NoLapse(c1.lockName, w, a)
    ensures Exclusive(c1.lockName, Apply(c1, c2, w, a))
  {
  }

  /** Every lapse-free interleaving keeps the lock exclusive. */
  lemma {:induction false} RunKeepsExclusion(c1: Config, c2: Config, w: World, acts: seq<Action>)
    requires Compatible(c1, c2)
    requires Exclusive(c1.lockName, w) && LapseFree(c1, c2, w, acts)
    ensures Exclusive(c1.lockName, Run(c1, c2, w, acts))
    decreases |acts|
  {
    if acts != [] {
      var prefix := acts[..|acts| - 1];
      RunKeepsExclusion(c1, c2, w, prefix);
      ApplyKeepsExclusion(c1, c2, Run(c1, c2, w, prefix), acts[|acts| - 1]);
    }
  }

  /** One action performed by the objects: the fields and the store move as `Apply`
      says. */
  method Perform(x: ExclusiveLock, y: ExclusiveLock, a: Action)
    requires x != y && x.store == y.store
    requires x.Valid() && y.Valid()
    modifies x, y, x.store
    ensures x.Valid() && y.Valid()
    ensures World(x.State(), y.State(), x.store.entries)
            == Apply(x.cfg, y.cfg, old(World(x.State(), y.State(), x.store.entries)), a)
  {
    match a {
      case DoAcquire(who, d) =>
        if who == First { var _ := x.Acquire(d); } else { var _ := y.Acquire(d); }
      case DoRefreshStart(who, d) =>
        if who == First { x.RefreshStart(d); } else { y.RefreshStart(d); }
      case DoRefreshSettle(who, ok) =>
        if who == First { x.RefreshSettle(ok); } else { y.RefreshSettle(ok); }
      case DoRelease(who, d) =>
        if who == First { x.Release(d); } else { y.Release(d); }
      case Wait(ms) =>
        x.store.Tick(ms);
    }
  }

  /** The same for the objects: two instances sharing one `Store` perform the
      schedule, their fields and the store follow `Run`, and the lock stays
      exclusive. */
  method Interleave(x: ExclusiveLock, y: ExclusiveLock, acts: seq<Action>)
    requires x != y && x.store == y.store
    requires x.Valid() && y.Valid()
    modifies x, y, x.store
    ensures x.Valid() && y.Valid()
    ensures World(x.State(), y.State(), x.store.entries)
            == Run(x.cfg, y.cfg, old(World(x.State(), y.State(), x.store.entries)), acts)
    ensures Compatible(x.cfg, y.cfg)
            && Exclusive(x.cfg.lockName, old(World(x.State(), y.State(), x.store.entries)))
            && LapseFree(x.cfg, y.cfg, old(World(x.State(), y.State(), x.store.entries)), acts)
            ==> Exclusive(x.cfg.lockName, World(x.State(), y.State(), x.store.entries))
  {
    ghost var w0 := World(x.State(), y.State(), x.store.entries);
    var i := 0;
    while i < |acts|
      invariant 0 <= i <= |acts|
      invariant x.Valid() && y.Valid()
      invariant World(x.State(), y.State(), x.store.entries) == Run(x.cfg, y.cfg, w0, acts[..i])
    {
      Perform(x, y, acts[i]);
      assert acts[..i + 1][..i] == acts[..i];
      i := i + 1;
    }
    assert acts[..|acts|] == acts;
    if Compatible(x.cfg, y.cfg) && Exclusive(x.cfg.lockName, w0) && LapseFree(x.cfg, y.cfg, w0, acts) {
      RunKeepsExclusion(x.cfg, y.cfg, w0, acts);
    }
  }

  /** A configuration with the default timings, for the counterexamples. */
  const Sample := Config("app", "lock-manager:app", DefaultLockTtlMs, DefaultLockRefreshMs, DefaultLockContents, true)

  const Idle := World(Unheld, Unheld, map[])

  lemma SampleWellFormed()
    ensures WellFormed(Sample.(lockRefreshMs := 0))
  {
    var name := "app";
    assert forall i :: 0 <= i < |name| ==> Slugs.IsWordChar(name[i]);
    assert Slugs.IsSlug(name);
    assert LockNamePrefix + name == "lock-manager:app";
  }

  /** Without the no-lapse condition: the first holder's key expires, the second
      instance acquires, and both hold. */
  lemma LapseBreaksExclusion()
    ensures var acts := [DoAcquire(First, Delivered), Wait(DefaultLockTtlMs), DoAcquire(Second, Delivered)];
            && Compatible(Sample, Sample)
            && !LapseFree(Sample, Sample, Idle, acts)
            && Run(Sample, Sample, Idle, acts).first.gotLock
            && Run(Sample, Sample, Idle, acts).second.gotLock
  {
    var acts := [DoAcquire(First, Delivered), Wait(DefaultLockTtlMs), DoAcquire(Second, Delivered)];
    var key := Sample.lockName;
    var held := AcquireStep(Sample, Unheld, map[], Delivered);
    assert held.lock.gotLock && held.entries == map[key := Entry("1", DefaultLockTtlMs)];
    var w1 := Idle.(first := held.lock, entries := held.entries);
    assert acts[..1][..0] == [];
    assert Run(Sample, Sample, Idle, acts[..1]) == w1;
    var w2 := w1.(entries := map[]);
    assert Elapse(w1.entries, DefaultLockTtlMs) == map[];
    assert acts[..2][..1] == acts[..1];
    assert Run(Sample, Sample, Idle, acts[..2]) == w2;
    assert !NoLapse(key, w1, acts[1]);
    assert acts[..3][..2] == acts[..2] && acts[..3] == acts;
    assert AcquireStep(Sample, Unheld, map[], Delivered).lock.gotLock;
  }

  /** Without positive refresh intervals: the holder's refresh deletes its own key,
      the second instance acquires, and both hold. */
  lemma ZeroRefreshBreaksExclusion()
    ensures var c := Sample.(lockRefreshMs := 0);
            var acts := [DoAcquire(First, Delivered), DoRefreshStart(First, Delivered), DoAcquire(Second, Delivered)];
            && WellFormed(c)
            && LapseFree(c, c, Idle, acts)
            && Run(c, c, Idle, acts).first.gotLock
            && Run(c, c, Idle, acts).second.gotLock
  {
    var c := Sample.(lockRefreshMs := 0);
    var acts := [DoAcquire(First, Delivered), DoRefreshStart(First, Delivered), DoAcquire(Second, Delivered)];
    SampleWellFormed();
    var key := c.lockName;
    var held := AcquireStep(c, Unheld, map[], Delivered);
    assert held.lock.gotLock && held.entries == map[key := Entry("1", DefaultLockTtlMs)];
    var w1 := Idle.(first := held.lock, entries := held.entries);
    assert acts[..1][..0] == [];
    assert Run(c, c, Idle, acts[..1]) == w1;
    var refreshed := RefreshStartStep(c, w1.first, w1.entries, Delivered);
    assert refreshed.entries == map[];
    var w2 := w1.(first := refreshed.lock, entries := map[]);
    assert acts[..2][..1] == acts[..1];
    assert Run(c, c, Idle, acts[..2]) == w2;
    assert acts[..3][..2] == acts[..2] && acts[..3] == acts;
    assert LapseFree(c, c, Idle, acts[..1]);
    assert LapseFree(c, c, Idle, acts[..2]);
    assert AcquireStep(c, w2.second, map[], Delivered).lock.gotLock;
  }
}
