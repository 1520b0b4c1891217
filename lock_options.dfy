/** The constructor of lib/exclusive-lock.js: option checks in their fixed order,
    defaults, and the derived lock name. */
module LockOptions {
  import opened Wrappers
  import Slugs

  const DefaultLockTtlMs := 3000
  const DefaultLockRefreshMs := 1000
  const RequiredMinMsDiff := 500
  /** `JSON.stringify(1)`: lock contents are modelled by their JSON text. */
  const DefaultLockContents := "1"
  const LockNamePrefix := "lock-manager:"

  /** What the constructor looks at in `opts.log`: whether it has a truthy `error`. */
  datatype Logger = Logger(hasError: bool)

  /** What the constructor and the schema look at in `opts.cache_connection`. */
  datatype Connection = NonObject | Object(hasSetFunction: bool)

  /** The options object; `None` is a property that is absent (`undefined`).
      A missing `opts` altogether is `NoOptions`. */
  datatype Options = Options(
    log: Option<Logger>,
    appName: Option<string>,
    cacheConnection: Option<Connection>,
    lockTtlMs: Option<int>,
    lockRefreshMs: Option<int>,
    lockContents: Option<string>,
    autoRefresh: Option<bool>)

  const NoOptions := Options(None, None, None, None, None, None, None)

  /** The schema rules, in the order the validator reports them: required properties,
      then property dependencies, then the per-property constraints. */
  datatype Violation =
    | MissingAppName
    | MissingCacheConnection
    | TtlWithoutRefresh
    | RefreshWithoutTtl
    | EmptyAppName
    | CacheConnectionNotObject

  /** The JavaScript class of the thrown error. */
  datatype ErrorClass = Error | TypeError | RangeError

  /** The errors the constructor throws; every one carries `code: 'EINVAL'`. */
  datatype ConfigError =
    | MissingLogger
    | InputValidationFailed(violation: Violation)
    | InvalidCacheConnection
    | RefreshTooClose(lockTtlMs: int, lockRefreshMs: int, diff: int)
  {
    function Code(): string { "EINVAL" }

    function Class(): ErrorClass {
      match this
      case MissingLogger => Error
      case InputValidationFailed(_) => Error
      case InvalidCacheConnection => TypeError
      case RefreshTooClose(_, _, _) => RangeError
    }
  }

  /** The instance fields set by a successful construction. */
  datatype Config = Config(
    appName: string,
    lockName: string,
    lockTtlMs: int,
    lockRefreshMs: int,
    lockContents: string,
    autoRefresh: bool)

  /** What every constructed instance satisfies. */
  ghost predicate WellFormed(cfg: Config) {
    && Slugs.IsSlug(cfg.appName)
    && cfg.appName != []
    && cfg.lockName == LockNamePrefix + cfg.appName
    && cfg.lockTtlMs - cfg.lockRefreshMs >= RequiredMinMsDiff
  }

  /** `opts.log?.error` is truthy. */
  predicate HasLogger(opts: Options) {
    opts.log.Some? && opts.log.value.hasError
  }

  predicate Violated(opts: Options, v: Violation) {
    match v
    case MissingAppName => opts.appName.None?
    case MissingCacheConnection => opts.cacheConnection.None?
    case TtlWithoutRefresh => opts.lockTtlMs.Some? && opts.lockRefreshMs.None?
    case RefreshWithoutTtl => opts.lockRefreshMs.Some? && opts.lockTtlMs.None?
    case EmptyAppName => opts.appName == Some("")
    case CacheConnectionNotObject => opts.cacheConnection == Some(NonObject)
  }

  const RuleOrder: seq<Violation> := [
    MissingAppName, MissingCacheConnection, TtlWithoutRefresh, RefreshWithoutTtl,
    EmptyAppName, CacheConnectionNotObject]

  /** `v` is the earliest rule of `rules` that `opts` breaks. */
  predicate FirstBroken(opts: Options, rules: seq<Violation>, v: Violation) {
    exists i :: 0 <= i < |rules| && rules[i] == v && Violated(opts, v)
                && forall j :: 0 <= j < i ==> !Violated(opts, rules[j])
  }

  /** The rules among `rules` that `opts` breaks, keeping their order. */
  function BrokenRules(opts: Options, rules: seq<Violation>): (vs: seq<Violation>)
    ensures forall v :: v in vs <==> v in rules && Violated(opts, v)
    ensures vs != [] ==> FirstBroken(opts, rules, vs[0])
  {
    if rules == [] then []
    else if Violated(opts, rules[0]) then
      [rules[0]] + BrokenRules(opts, rules[1..])
    else
      var rest := BrokenRules(opts, rules[1..]);
      assert rest != [] ==> FirstBroken(opts, rules, rest[0]) by {
        if rest != [] {
          var i :| 0 <= i < |rules[1..]| && rules[1..][i] == rest[0] && Violated(opts, rest[0])
                   && forall j :: 0 <= j < i ==> !Violated(opts, rules[1..][j]);
          assert rules[i + 1] == rest[0];
          assert forall j :: 0 <= j < i + 1 ==> !Violated(opts, rules[j]) by {
            forall j | 0 <= j < i + 1 ensures !Violated(opts, rules[j]) {
              if j > 0 { assert rules[j] == rules[1..][j - 1]; }
            }
          }
        }
      }
      rest
  }

  lemma EveryRuleListed(v: Violation)
    ensures v in RuleOrder
  {
    match v
    case MissingAppName => assert RuleOrder[0] == v;
    case MissingCacheConnection => assert RuleOrder[1] == v;
    case TtlWithoutRefresh => assert RuleOrder[2] == v;
    case RefreshWithoutTtl => assert RuleOrder[3] == v;
    case EmptyAppName => assert RuleOrder[4] == v;
    case CacheConnectionNotObject => assert RuleOrder[5] == v;
  }

  /** The rules `opts` breaks, in reporting order; the first is the one reported. */
  function Violations(opts: Options): (vs: seq<Violation>)
    ensures forall v :: v in vs <==> Violated(opts, v)
    ensures vs != [] ==> FirstBroken(opts, RuleOrder, vs[0])
  {
    forall v: Violation ensures v in RuleOrder { EveryRuleListed(v); }
    BrokenRules(opts, RuleOrder)
  }

  /** `typeof cache_connection?.set === 'function'`. */
  predicate HasSetFunction(opts: Options) {
    opts.cacheConnection.Some? && opts.cacheConnection.value.Object?
      && opts.cacheConnection.value.hasSetFunction
  }

  function LockTtlMsOf(opts: Options): int { opts.lockTtlMs.GetOr(DefaultLockTtlMs) }
  function LockRefreshMsOf(opts: Options): int { opts.lockRefreshMs.GetOr(DefaultLockRefreshMs) }

  /** The lock's key: the prefix followed by the normalised application name. */
  function LockName(appName: string): (name: string)
    ensures |name| >= |LockNamePrefix| && name[..|LockNamePrefix|] == LockNamePrefix
    ensures Slugs.IsSlug(name[|LockNamePrefix|..])
  {
    Slugs.SlugIsSlug(appName);
    var name := LockNamePrefix + Slugs.Slug(appName);
    assert name[|LockNamePrefix|..] == Slugs.Slug(appName);
    name
  }

  /** The constructor, lines 17-80: either the fields of the new instance or the
      error it throws. */
  function Configure(opts: Options): (r: Result<Config, ConfigError>)
    ensures r.Failure? ==> r.error.Code() == "EINVAL"
    // construction succeeds exactly when all four checks pass
    ensures r.Success? <==>
              && HasLogger(opts) && Violations(opts) == [] && HasSetFunction(opts)
              && LockTtlMsOf(opts) - LockRefreshMsOf(opts) >= RequiredMinMsDiff
    // the logger check comes first, whatever else is wrong
    ensures r == Failure(MissingLogger) <==> !HasLogger(opts)
    // then schema validation, reporting the first broken rule
    ensures HasLogger(opts) && Violations(opts) != [] ==>
              r == Failure(InputValidationFailed(Violations(opts)[0]))
    // then the `set` check
    ensures r == Failure(InvalidCacheConnection) <==>
              HasLogger(opts) && Violations(opts) == [] && !HasSetFunction(opts)
    // then the spacing check, with the values it saw
    ensures r.Failure? && r.error.RefreshTooClose? <==>
              && HasLogger(opts) && Violations(opts) == [] && HasSetFunction(opts)
              && LockTtlMsOf(opts) - LockRefreshMsOf(opts) < RequiredMinMsDiff
    ensures r.Failure? && r.error.RefreshTooClose? ==>
              r.error == RefreshTooClose(LockTtlMsOf(opts), LockRefreshMsOf(opts),
                                         LockTtlMsOf(opts) - LockRefreshMsOf(opts))
    // and a constructed instance carries the normalised name and the chosen timings
    ensures r.Success? ==> WellFormed(r.value)
    ensures r.Success? ==>
              && opts.appName.Some?
              && r.value.appName == Slugs.Slug(opts.appName.value)
              && r.value.lockName == LockName(opts.appName.value)
              && r.value.lockTtlMs == LockTtlMsOf(opts)
              && r.value.lockRefreshMs == LockRefreshMsOf(opts)
              && r.value.lockContents == opts.lockContents.GetOr(DefaultLockContents)
              && r.value.autoRefresh == opts.autoRefresh.GetOr(true)
  {
    if !HasLogger(opts) then Failure(MissingLogger)
    else
      var violations := Violations(opts);
      if violations != [] then Failure(InputValidationFailed(violations[0]))
      else if !HasSetFunction(opts) then Failure(InvalidCacheConnection)
      else
        var ttl := LockTtlMsOf(opts);
        var refresh := LockRefreshMsOf(opts);
        var diff := ttl - refresh;
        if diff < RequiredMinMsDiff then Failure(RefreshTooClose(ttl, refresh, diff))
        else
          assert !Violated(opts, MissingAppName) && !Violated(opts, EmptyAppName);
          var appName := Slugs.Slug(opts.appName.value);
          Slugs.SlugIsSlug(opts.appName.value);
          Slugs.SlugHead(opts.appName.value);
          Success(Config(appName, LockNamePrefix + appName, ttl, refresh,
                         opts.lockContents.GetOr(DefaultLockContents),
                         opts.autoRefresh.GetOr(true)))
  }

  /** With neither timing given, the defaults 3000 ms and 1000 ms are used and always
      pass the spacing check. */
  lemma DefaultTimingsPass(opts: Options)
    requires HasLogger(opts) && Violations(opts) == [] && HasSetFunction(opts)
    requires opts.lockTtlMs.None?
    ensures Configure(opts).Success?
    ensures Configure(opts).value.lockTtlMs == DefaultLockTtlMs
    ensures Configure(opts).value.lockRefreshMs == DefaultLockRefreshMs
  {
    assert !Violated(opts, RefreshWithoutTtl);
  }

  /** A missing options object is reported as a missing logger. */
  lemma NoOptionsFails()
    ensures Configure(NoOptions) == Failure(MissingLogger)
  {
  }

  /** Only the earliest broken rule is reported: with just a logger, the missing
      `app_name`, although `cache_connection` is missing as well; with everything
      else in place, a time to live without a refresh interval. */
  lemma ValidationOrderExamples(log: Logger, conn: Connection)
    requires log.hasError && conn.Object?
    ensures Configure(NoOptions.(log := Some(log)))
            == Failure(InputValidationFailed(MissingAppName))
    ensures Configure(NoOptions.(log := Some(log), appName := Some("my-locking-app"),
                                 cacheConnection := Some(conn), lockTtlMs := Some(5000)))
            == Failure(InputValidationFailed(TtlWithoutRefresh))
  {
    var bare := NoOptions.(log := Some(log));
    assert Violated(bare, MissingAppName);
    var ttlOnly := NoOptions.(log := Some(log), appName := Some("my-locking-app"),
                              cacheConnection := Some(conn), lockTtlMs := Some(5000));
    assert Violated(ttlOnly, TtlWithoutRefresh);
    assert !Violated(ttlOnly, MissingAppName) && !Violated(ttlOnly, MissingCacheConnection);
  }

  /** Timings 500 ms and 100 ms are too close: the error carries both and their
      difference. */
  lemma SpacingExample(opts: Options)
    requires HasLogger(opts) && Violations(opts) == [] && HasSetFunction(opts)
    requires opts.lockTtlMs == Some(500) && opts.lockRefreshMs == Some(100)
    ensures Configure(opts) == Failure(RefreshTooClose(500, 100, 400))
    ensures Configure(opts).error.Class() == RangeError
  {
  }

  /** A name made of words and separator runs gets a key whose words are joined
      by single dashes. */
  lemma LockNameJoinsWords(ws: seq<string>, seps: seq<string>)
    requires |ws| == |seps| + 1
    requires forall i :: 0 <= i < |ws| ==> Slugs.IsWord(ws[i])
    requires forall i :: 0 <= i < |seps| ==> Slugs.IsSeparatorRun(seps[i])
    ensures LockName(Slugs.Spaced(ws, seps)) == LockNamePrefix + Slugs.Dashed(ws)
  {
    Slugs.SlugJoinsWords(ws, seps);
  }

  /** The test name `some deployment "name" with spaces`, as words and separator runs. */
  lemma ExampleNameIsSpaced()
    ensures Slugs.Spaced(["some", "deployment", "name", "with", "spaces"], [" ", " \"", "\" ", " "])
            == "some deployment \"name\" with spaces"
  {
    var ws, seps := ["some", "deployment", "name", "with", "spaces"], [" ", " \"", "\" ", " "];
    assert Slugs.Spaced(ws[4..], seps[4..]) == "spaces";
    assert Slugs.Spaced(ws[3..], seps[3..]) == "with" + (" " + "spaces");
    assert Slugs.Spaced(ws[2..], seps[2..]) == "name" + ("\" " + Slugs.Spaced(ws[3..], seps[3..]));
    assert Slugs.Spaced(ws[1..], seps[1..]) == "deployment" + (" \"" + Slugs.Spaced(ws[2..], seps[2..]));
    assert Slugs.Spaced(ws, seps) == "some" + (" " + Slugs.Spaced(ws[1..], seps[1..]));
  }

  /** The name used by the tests, `some deployment "name" with spaces`. */
  lemma LockNameExample()
    ensures LockName(Slugs.Spaced(["some", "deployment", "name", "with", "spaces"], [" ", " \"", "\" ", " "]))
            == LockNamePrefix + Slugs.Dashed(["some", "deployment", "name", "with", "spaces"])
  {
    var ws, seps := ["some", "deployment", "name", "with", "spaces"], [" ", " \"", "\" ", " "];
    assert Slugs.IsWord(ws[0]) && Slugs.IsWord(ws[1]) && Slugs.IsWord(ws[2]) && Slugs.IsWord(ws[3]) && Slugs.IsWord(ws[4]);
    assert Slugs.IsSeparatorRun(seps[0]) && Slugs.IsSeparatorRun(seps[1]);
    assert Slugs.IsSeparatorRun(seps[2]) && Slugs.IsSeparatorRun(seps[3]);
    LockNameJoinsWords(ws, seps);
  }
}
