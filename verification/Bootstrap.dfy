/**
 Starting, reusing and replacing the shared daemon (`src/daemon/bootstrap.rs`).

 What the operating system, the network and other processes answer during one call is its `Env`; `cut` is
 the await at which the caller may drop the call. `Effects` are what one call did: the manifest it left,
 the daemon it asked to stop, the process it spawned, and the continuation it saved.
 */
module Bootstrap {
  import opened Wrappers

  /** Released versions are totally ordered; nothing else about them matters here. */
  type Version = nat

  datatype Origin = Sibling | ManagedDownload | OnPath | Override | Unknown

  predicate Owned(o: Origin) {
    o.Sibling? || o.ManagedDownload?
  }

  datatype Health = Health(version: Option<Version>, capable: bool, pid: nat)

  datatype Probe = Healthy(health: Health) | Unreachable | Incompatible | Invalid | TimedOut | Broken

  datatype Manifest = Manifest(origin: Origin, path: string, version: Option<Version>, pid: nat, endpoint: Option<string>, model: string)

  /** `preferSibling` is a call on behalf of an upgrader, which names the sibling itself. */
  datatype Config = Config(daemonPath: Option<string>, model: string, preferSibling: bool)

  /** A candidate daemon beside the client: what `--version` and `--__build-info` say, where they say anything. */
  datatype Candidate = Candidate(path: string, version: Option<Version>, advertises: Option<bool>)

  datatype Cut = Never | AtLock | AtProbe | AtShutdown | AtDownload | AtSleep | AtHealth

  datatype Env = Env(
    cut: Cut,
    lockOk: bool,
    loadOk: bool,
    probe: Probe,
    sibling: Option<Candidate>,
    shutdownOk: bool,
    present: set<string>,
    onPath: Option<string>,
    managedPath: string,
    downloadOk: bool,
    startVersion: Option<Version>,
    spawn: Option<nat>,
    exited: bool,
    polls: seq<Probe>,
    saveOk: bool)
  {
    function Awaited(): Probe {
      FirstAnswer(polls)
    }
  }

  /** What `wait_for_health` returns, given the polls before its deadline: the first answer, or a timeout. */
  function FirstAnswer(polls: seq<Probe>): (r: Probe)
    ensures !r.Unreachable?
  {
    if polls == [] then TimedOut
    else if polls[0].Unreachable? then FirstAnswer(polls[1..])
    else polls[0]
  }

  datatype Started = Started(endpoint: string, path: string, origin: Origin, pid: nat, model: string, expected: Option<Version>)

  datatype Context = FromManifest | FromStarted(started: Started)

  datatype Outcome = Ready(manifest: Manifest, reused: bool, health: Health) | Pending(context: Context) | Failed | Cancelled

  datatype Effects = Effects(manifest: Option<Manifest>, stopped: Option<Health>, spawned: Option<Started>, outcome: Outcome)

  const DEFAULT_ENDPOINT := "semanticd"

  /** `effective_origin`: only a legacy manifest is classified by the path it names. */
  function EffectiveOrigin(m: Manifest, managedPath: string, installed: string): Origin {
    if !m.origin.Unknown? then m.origin
    else if m.path == installed then Sibling
    else if m.path == managedPath then ManagedDownload
    else Unknown
  }

  function OriginInForce(config: Config, m: Manifest, env: Env): Origin {
    if config.daemonPath.Some? then Override
    else if env.sibling.Some? then EffectiveOrigin(m, env.managedPath, env.sibling.value.path)
    else m.origin
  }

  /** Whether a healthy daemon is to be replaced; `None` when a version or the build information cannot be read. */
  function ShouldReplace(origin: Origin, sibling: Option<Candidate>, h: Health): Option<bool> {
    if !Owned(origin) || sibling.None? then Some(false)
    else
      var s := sibling.value;
      if s.version.None? || h.version.None? then None
      else if s.version.value > h.version.value then Some(true)
      else if s.version.value == h.version.value && !h.capable then s.advertises
      else Some(false)
  }

  /** `resolve_daemon_binary`. */
  function ResolveBinary(config: Config, m: Option<Manifest>, env: Env): (string, Origin) {
    if config.daemonPath.Some? then (config.daemonPath.value, Override)
    else if env.sibling.Some? then (env.sibling.value.path, Sibling)
    else if m.Some? && m.value.path != "" then (m.value.path, m.value.origin)
    else (env.managedPath, ManagedDownload)
  }

  /** The binary that is there to be started, or why there is none. */
  function LocateBinary(config: Config, m: Option<Manifest>, env: Env): Result<(string, Origin), Outcome> {
    var (path, origin) := ResolveBinary(config, m, env);
    if path in env.present then Ok((path, origin))
    else if origin.Override? then Err(Failed)
    else if env.onPath.Some? then Ok((env.onPath.value, OnPath))
    else if env.cut.AtDownload? then Err(Cancelled)
    else if !env.downloadOk then Err(Failed)
    else Ok((env.managedPath, ManagedDownload))
  }

  /** `complete_started_daemon`: the manifest is written only for the process that was spawned. */
  function Complete(s: Started, disk: Option<Manifest>, env: Env): (Option<Manifest>, Outcome) {
    if env.cut.AtHealth? then (disk, Cancelled)
    else
      match env.Awaited()
      case Healthy(h) =>
        if h.pid != s.pid || (s.expected.Some? && h.version != s.expected) || !env.saveOk then (disk, Failed)
        else
          var m := Manifest(s.origin, s.path, h.version, s.pid, Some(s.endpoint), s.model);
          (Some(m), Ready(m, false, h))
      case TimedOut => (disk, Pending(FromStarted(s)))
      case _ => (disk, Failed)
  }

  /** The part of `ensure_daemon_inner` that starts a process, after the manifest was found stale, missing or replaceable. */
  function Start(config: Config, disk: Option<Manifest>, stopped: Option<Health>, env: Env): Effects {
    var endpoint := if disk.Some? && disk.value.endpoint.Some? then disk.value.endpoint.value else DEFAULT_ENDPOINT;
    match LocateBinary(config, disk, env)
    case Err(outcome) => Effects(disk, stopped, None, outcome)
    case Ok((path, origin)) =>
      if origin.Sibling? && env.startVersion.None? then Effects(disk, stopped, None, Failed)
      else if env.spawn.None? then Effects(disk, stopped, None, Failed)
      else
        var model := if (stopped.Some? || config.preferSibling) && disk.Some? then disk.value.model else config.model;
        var s := Started(endpoint, path, origin, env.spawn.value, model, if origin.Sibling? then env.startVersion else None);
        if env.cut.AtSleep? then Effects(disk, stopped, Some(s), Cancelled)
        else if env.exited then Effects(disk, stopped, Some(s), Failed)
        else
          var (m, outcome) := Complete(s, disk, env);
          Effects(m, stopped, Some(s), outcome)
  }

  /** `ensure_daemon_inner`. */
  function Ensure(config: Config, disk: Option<Manifest>, env: Env): Effects {
    if env.cut.AtLock? then Effects(disk, None, None, Cancelled)
    else if !env.lockOk || !env.loadOk then Effects(disk, None, None, Failed)
    else if disk.None? then Start(config, disk, None, env)
    else
      var m := disk.value;
      if m.endpoint.None? then Effects(disk, None, None, Failed)
      else if env.cut.AtProbe? then Effects(disk, None, None, Cancelled)
      else
        match env.probe
        case TimedOut => Effects(disk, None, None, Pending(FromManifest))
        case Unreachable => Start(config, disk, None, env)
        case Healthy(h) => EnsureHealthy(config, m, h, env)
        case _ => Effects(disk, None, None, Failed)
  }

  /** The endpoint answered: reuse the daemon, or replace it by its newer sibling. */
  function EnsureHealthy(config: Config, m: Manifest, h: Health, env: Env): Effects {
    var disk := Some(m);
    var origin := OriginInForce(config, m, env);
    match ShouldReplace(origin, env.sibling, h)
    case None => Effects(disk, None, None, Failed)
    case Some(replace) =>
      if replace then
        if env.cut.AtShutdown? then Effects(disk, Some(h), None, Cancelled)
        else if !env.shutdownOk then Effects(disk, Some(h), None, Failed)
        else Start(config, disk, Some(h), env)
      else if !env.saveOk then Effects(disk, None, None, Failed)
      else
        var m' := m.(version := h.version, origin := origin);
        Effects(Some(m'), None, None, Ready(m', true, h))
  }

  /** `PendingBootstrap::resume`: what it did and the continuation it leaves. */
  function Resume(config: Config, context: Context, disk: Option<Manifest>, env: Env): (Effects, Context) {
    match context
    case FromManifest =>
      var e := Ensure(config, disk, env);
      (e, if e.spawned.Some? then FromStarted(e.spawned.value) else FromManifest)
    case FromStarted(s) =>
      if env.cut.AtLock? then (Effects(disk, None, None, Cancelled), context)
      else if !env.lockOk then (Effects(disk, None, None, Failed), context)
      else
        var (m, outcome) := Complete(s, disk, env);
        (Effects(m, None, None, outcome), context)
  }

  // ---------------------------------------------------------------------------------------
  // One process per startup
  // ---------------------------------------------------------------------------------------

  /** A returned continuation says whether its call spawned a process, and which. */
  lemma PendingNamesItsProcess(config: Config, disk: Option<Manifest>, env: Env)
    requires Ensure(config, disk, env).outcome.Pending?
    ensures var e := Ensure(config, disk, env);
            e.outcome.context == if e.spawned.Some? then FromStarted(e.spawned.value) else FromManifest
  {
  }

  /** A moment of the outside world: the manifest another process may have left, and how this call goes. */
  datatype Moment = Moment(disk: Option<Manifest>, env: Env)

  /** The continuation after a number of resumptions, each of which may fail, time out or be dropped at any await. */
  function ContextAfter(config: Config, context: Context, moments: seq<Moment>): Context
    decreases |moments|
  {
    if moments == [] then context
    else ContextAfter(config, Resume(config, context, moments[0].disk, moments[0].env).1, moments[1..])
  }

  /** Every process that those resumptions spawn, in order. */
  function SpawnedBy(config: Config, context: Context, moments: seq<Moment>): seq<Started>
    decreases |moments|
  {
    if moments == [] then []
    else
      var (e, next) := Resume(config, context, moments[0].disk, moments[0].env);
      (if e.spawned.Some? then [e.spawned.value] else []) + SpawnedBy(config, next, moments[1..])
  }

  /** Once started, a continuation never changes and spawns nothing more. */
  lemma {:induction false} StartedIsFinal(config: Config, s: Started, moments: seq<Moment>)
    ensures ContextAfter(config, FromStarted(s), moments) == FromStarted(s)
    ensures SpawnedBy(config, FromStarted(s), moments) == []
  {
    if moments != [] {
      StartedIsFinal(config, s, moments[1..]);
    }
  }

  /** However often a startup is resumed, it spawns one process at most, and the continuation names exactly that one. */
  lemma {:induction false} ResumptionsSpawnOnce(config: Config, context: Context, moments: seq<Moment>)
    ensures var spawned := SpawnedBy(config, context, moments);
            var final := ContextAfter(config, context, moments);
            if context.FromStarted? then spawned == [] && final == context
            else (spawned == [] && final == FromManifest) || (|spawned| == 1 && final == FromStarted(spawned[0]))
  {
    if moments != [] {
      var (e, next) := Resume(config, context, moments[0].disk, moments[0].env);
      if next.FromStarted? {
        StartedIsFinal(config, next.started, moments[1..]);
      } else {
        ResumptionsSpawnOnce(config, next, moments[1..]);
      }
    }
  }

  /** A begin call that returned a continuation and all its resumptions together spawn one process at most. */
  lemma StartupSpawnsOnce(config: Config, disk: Option<Manifest>, env: Env, moments: seq<Moment>)
    requires Ensure(config, disk, env).outcome.Pending?
    ensures var e := Ensure(config, disk, env);
            (if e.spawned.Some? then 1 else 0) + |SpawnedBy(config, e.outcome.context, moments)| <= 1
  {
    PendingNamesItsProcess(config, disk, env);
    ResumptionsSpawnOnce(config, Ensure(config, disk, env).outcome.context, moments);
  }

  // ---------------------------------------------------------------------------------------
  // What a startup starts, and how it ends
  // ---------------------------------------------------------------------------------------

  /** The binary that is looked for first: the override, the sibling, the manifest's own, or the managed one. */
  predicate FirstChoicePresent(config: Config, disk: Option<Manifest>, env: Env) {
    if config.daemonPath.Some? then config.daemonPath.value in env.present
    else if env.sibling.Some? then env.sibling.value.path in env.present
    else if disk.Some? && disk.value.path != "" then disk.value.path in env.present
    else env.managedPath in env.present
  }

  /** The first choice is an override: this call's, or the one that a manifest still names. */
  predicate NamesOverride(config: Config, disk: Option<Manifest>, env: Env) {
    || config.daemonPath.Some?
    || (env.sibling.None? && disk.Some? && disk.value.path != "" && disk.value.origin == Override)
  }

  /** Nothing was asked for by path, the first choice is missing, and the search path has a daemon. */
  predicate FallsBackToPath(config: Config, disk: Option<Manifest>, env: Env) {
    !NamesOverride(config, disk, env) && !FirstChoicePresent(config, disk, env) && env.onPath.Some?
  }

  /** The lock is held, the manifest is read, and nothing is left at its endpoint that could be used. */
  predicate NeedsDaemon(config: Config, disk: Option<Manifest>, env: Env) {
    && !env.cut.AtLock? && env.lockOk && env.loadOk
    && (disk.Some? ==>
        && disk.value.endpoint.Some? && !env.cut.AtProbe?
        && (env.probe.Unreachable? || (Ensure(config, disk, env).stopped.Some? && !env.cut.AtShutdown? && env.shutdownOk)))
  }

  /** A process is spawned exactly if one is needed, a binary is there or can be had, and the system starts it. */
  lemma SpawnsExactlyWhen(config: Config, disk: Option<Manifest>, env: Env)
    ensures Ensure(config, disk, env).spawned.Some? <==>
            && NeedsDaemon(config, disk, env) && env.spawn.Some?
            && (FirstChoicePresent(config, disk, env)
                || (!NamesOverride(config, disk, env) && (env.onPath.Some? || (!env.cut.AtDownload? && env.downloadOk))))
            && (env.startVersion.None? ==>
                !(config.daemonPath.None? && env.sibling.Some? && env.sibling.value.path in env.present)
                && !(config.daemonPath.None? && env.sibling.None? && disk.Some? && disk.value.path != ""
                     && disk.value.path in env.present && disk.value.origin.Sibling?))
  {
  }

  /** Which binary is started, and as whose, in terms of what was configured and what is there. */
  lemma StartsTheRightBinary(config: Config, disk: Option<Manifest>, env: Env)
    requires Ensure(config, disk, env).spawned.Some?
    ensures var s := Ensure(config, disk, env).spawned.value;
            && (config.daemonPath.Some? ==> s.path == config.daemonPath.value && s.origin == Override)
            && (config.daemonPath.None? && FirstChoicePresent(config, disk, env) ==>
                if env.sibling.Some? then s.path == env.sibling.value.path && s.origin == Sibling
                else if disk.Some? && disk.value.path != "" then s.path == disk.value.path && s.origin == disk.value.origin
                else s.path == env.managedPath && s.origin == ManagedDownload)
            && (FallsBackToPath(config, disk, env) ==> s.path == env.onPath.value && s.origin == OnPath)
            && (!NamesOverride(config, disk, env) && !FirstChoicePresent(config, disk, env) && env.onPath.None? ==>
                s.path == env.managedPath && s.origin == ManagedDownload)
    // A missing override is never replaced by something else.
    ensures NamesOverride(config, disk, env) ==> FirstChoicePresent(config, disk, env)
    // An origin that the package may not touch is never made up, and never lost.
    ensures var s := Ensure(config, disk, env).spawned.value;
            && (s.origin == Override && config.daemonPath.None? ==> disk.Some? && disk.value.origin == Override && s.path == disk.value.path)
            && (s.origin == OnPath && !FallsBackToPath(config, disk, env) ==>
                disk.Some? && disk.value.origin == OnPath && s.path == disk.value.path)
  {
  }

  /** The process, the endpoint and the model of a start, and the version it must report. */
  lemma StartsItProperly(config: Config, disk: Option<Manifest>, env: Env)
    requires Ensure(config, disk, env).spawned.Some?
    ensures var e := Ensure(config, disk, env);
            var s := e.spawned.value;
            && env.spawn == Some(s.pid)
            && (disk.Some? ==> disk.value.endpoint == Some(s.endpoint)) && (disk.None? ==> s.endpoint == "semanticd")
            && (disk.Some? && (e.stopped.Some? || config.preferSibling) ==> s.model == disk.value.model)
            && (disk.None? || (e.stopped.None? && !config.preferSibling) ==> s.model == config.model)
            && s.expected == if s.origin == Sibling then env.startVersion else None
  {
  }

  /** How a start ends: well, exactly if the very process that was spawned answers, as the expected version, and is recorded. */
  lemma StartEndsExactly(config: Config, disk: Option<Manifest>, env: Env)
    requires Ensure(config, disk, env).spawned.Some?
    ensures var e := Ensure(config, disk, env);
            var s := e.spawned.value;
            var waited := !env.cut.AtSleep? && !env.exited && !env.cut.AtHealth?;
            && (e.outcome.Ready? <==>
                && waited && env.saveOk && env.Awaited().Healthy? && Some(env.Awaited().health.pid) == env.spawn
                && (s.expected.Some? ==> env.Awaited().health.version == s.expected))
            && (e.outcome.Ready? ==>
                && !e.outcome.reused && e.outcome.health == env.Awaited().health
                && e.manifest == Some(Manifest(s.origin, s.path, env.Awaited().health.version, s.pid, Some(s.endpoint), s.model)))
            && (e.outcome == Pending(FromStarted(s)) <==> waited && env.Awaited().TimedOut?)
            && (e.outcome.Cancelled? <==> env.cut.AtSleep? || (!env.exited && env.cut.AtHealth?))
            && (!e.outcome.Ready? ==> e.manifest == disk)
  {
  }

  /**
   A resumption of a started daemon only waits for it, under the lock: it is ready exactly if the process named in the
   continuation answers, as the expected version, and is recorded, and stays pending exactly if nothing answers in time.
   */
  lemma ResumptionEndsExactly(config: Config, s: Started, disk: Option<Manifest>, env: Env)
    ensures var (e, next) := Resume(config, FromStarted(s), disk, env);
            var waited := !env.cut.AtLock? && env.lockOk && !env.cut.AtHealth?;
            && next == FromStarted(s) && e.spawned.None? && e.stopped.None?
            && (e.outcome.Ready? <==>
                && waited && env.saveOk && env.Awaited().Healthy? && env.Awaited().health.pid == s.pid
                && (s.expected.Some? ==> env.Awaited().health.version == s.expected))
            && (e.outcome.Ready? ==>
                && !e.outcome.reused && e.outcome.health == env.Awaited().health
                && e.manifest == Some(Manifest(s.origin, s.path, env.Awaited().health.version, s.pid, Some(s.endpoint), s.model)))
            && (e.outcome.Pending? <==> waited && env.Awaited().TimedOut?)
            && (e.outcome.Pending? ==> e.outcome.context == FromStarted(s))
            && (!e.outcome.Ready? ==> e.manifest == disk)
  {
  }

  /** Whether the versions are readable, and the build information where it decides. */
  predicate Comparable(sibling: Candidate, h: Health) {
    && sibling.version.Some? && h.version.Some?
    && (sibling.version == h.version && !h.capable ==> sibling.advertises.Some?)
  }

  /** The endpoint's daemon is reused exactly if it is healthy, nothing the package owns outranks it, and that can be recorded. */
  lemma ReusesExactlyWhen(config: Config, disk: Option<Manifest>, env: Env)
    ensures var e := Ensure(config, disk, env);
            (e.outcome.Ready? && e.outcome.reused) <==>
              && Probes(disk, env) && env.probe.Healthy? && env.saveOk
              && (Owned(OriginInForce(config, disk.value, env)) && env.sibling.Some? ==>
                  && Comparable(env.sibling.value, env.probe.health)
                  && !Outranks(env.sibling.value.version.value, env.sibling.value.advertises == Some(true), env.probe.health))
    ensures var e := Ensure(config, disk, env);
            e.outcome.Ready? && e.outcome.reused ==>
              && e.outcome.health == env.probe.health
              && e.manifest == Some(disk.value.(version := env.probe.health.version, origin := OriginInForce(config, disk.value, env)))
    ensures Ensure(config, disk, env).outcome == Pending(FromManifest) <==> Probes(disk, env) && env.probe.TimedOut?
  {
  }

  /** The origin in force is the manifest's own, unless a call overrides it or a manifest without one names a binary of the package. */
  lemma OriginMeans(config: Config, m: Manifest, env: Env)
    ensures var o := OriginInForce(config, m, env);
            && (o == m.origin
                || (o == Override && config.daemonPath.Some?)
                || (m.origin == Unknown && env.sibling.Some? && o == Sibling && m.path == env.sibling.value.path)
                || (m.origin == Unknown && env.sibling.Some? && o == ManagedDownload && m.path == env.managedPath))
            && (config.daemonPath.Some? ==> o == Override)
            && (Owned(o) <==>
                && config.daemonPath.None?
                && (m.origin == Sibling || m.origin == ManagedDownload
                    || (m.origin == Unknown && env.sibling.Some? && (m.path == env.sibling.value.path || m.path == env.managedPath))))
  {
  }

  // ---------------------------------------------------------------------------------------
  // The manifest
  // ---------------------------------------------------------------------------------------

  /** The manifest a completed start leaves: for the spawned process, as the endpoint itself reported it. */
  predicate Vouched(s: Started, m: Manifest, awaited: Probe) {
    && awaited.Healthy?
    && awaited.health.pid == s.pid == m.pid
    && (s.expected.Some? ==> awaited.health.version == s.expected)
    && m == Manifest(s.origin, s.path, awaited.health.version, s.pid, Some(s.endpoint), s.model)
  }

  /** On the startup path the manifest changes only on reuse of the endpoint that answered, or for a vouched process. */
  lemma ManifestIsEarned(config: Config, context: Context, disk: Option<Manifest>, env: Env)
    ensures var (e, next) := Resume(config, context, disk, env);
            e.manifest != disk ==>
              && e.manifest.Some? && e.outcome.Ready? && e.outcome.manifest == e.manifest.value
              && (if e.outcome.reused then
                    && disk.Some? && env.probe == Healthy(e.outcome.health) && e.spawned.None? && e.stopped.None?
                    && e.manifest.value == disk.value.(version := e.outcome.health.version, origin := e.manifest.value.origin)
                  else next.FromStarted? && Vouched(next.started, e.manifest.value, env.Awaited()))
    ensures Resume(config, context, disk, env).0.outcome.Ready? ==>
              Resume(config, context, disk, env).0.manifest == Some(Resume(config, context, disk, env).0.outcome.manifest)
  {
  }

  // ---------------------------------------------------------------------------------------
  // Replacement
  // ---------------------------------------------------------------------------------------

  predicate Outranks(version: Version, capable: bool, h: Health) {
    h.version.Some? && (version > h.version.value || (version == h.version.value && capable && !h.capable))
  }

  /** The call gets far enough to look at the endpoint of a usable manifest. */
  predicate Probes(disk: Option<Manifest>, env: Env) {
    && !env.cut.AtLock? && !env.cut.AtProbe? && env.lockOk && env.loadOk
    && disk.Some? && disk.value.endpoint.Some?
  }

  /** A daemon is asked to stop exactly when it is healthy and owned, nothing overrides it, and its sibling outranks it. */
  lemma StopsExactlyWhen(config: Config, disk: Option<Manifest>, env: Env, h: Health)
    ensures Ensure(config, disk, env).stopped == Some(h) <==>
            && Probes(disk, env) && env.probe == Healthy(h)
            && config.daemonPath.None? && Owned(OriginInForce(config, disk.value, env))
            && env.sibling.Some? && env.sibling.value.version.Some?
            && Outranks(env.sibling.value.version.value, env.sibling.value.advertises == Some(true), h)
  {
  }

  /** The inspected sibling is the one that is started, and `--version` answers the same twice. */
  predicate SiblingStays(env: Env) {
    env.sibling.Some? ==> env.sibling.value.path in env.present && env.startVersion == env.sibling.value.version
  }

  /** A started sibling reports what its binary advertises. */
  predicate ReportsHonestly(env: Env, h: Health) {
    env.sibling.Some? && (env.sibling.value.advertises.Some? ==> h.capable == env.sibling.value.advertises.value)
  }

  /** Each completed replacement of a daemon strictly raises the pair of version and required capabilities. */
  lemma ReplacementRaises(config: Config, disk: Option<Manifest>, env: Env)
    requires SiblingStays(env)
    requires var e := Ensure(config, disk, env);
             e.stopped.Some? && e.outcome.Ready? && ReportsHonestly(env, e.outcome.health)
    ensures var e := Ensure(config, disk, env);
            && !e.outcome.reused && e.spawned.Some?
            && e.outcome.health.version.Some?
            && Outranks(e.outcome.health.version.value, e.outcome.health.capable, e.stopped.value)
  {
    StopsExactlyWhen(config, disk, env, Ensure(config, disk, env).stopped.value);
  }

  /** A world with one sibling that never changes: the daemon at the endpoint, if any, and the manifest. */
  datatype World = World(daemon: Option<Health>, manifest: Option<Manifest>)

  /** Nothing the sibling could offer ranks above this daemon. */
  predicate UpToDate(sibling: Candidate, d: Option<Health>) {
    d.Some? && sibling.version.Some? ==> !Outranks(sibling.version.value, sibling.advertises == Some(true), d.value)
  }

  /** The started process came up as its binary, or not at all. */
  predicate SiblingDaemon(sibling: Candidate, d: Option<Health>) {
    d.Some? ==> d.value.version == sibling.version && (sibling.advertises.Some? ==> d.value.capable == sibling.advertises.value)
  }

  /** One call in that world. Daemons may crash at any time, and the call may fail or be dropped anywhere. */
  predicate HonestCall(sibling: Candidate, config: Config, w: World, env: Env, w': World) {
    var e := Ensure(config, w.manifest, env);
    && config.daemonPath.None? && env.sibling == Some(sibling) && SiblingStays(env)
    && (env.probe.Healthy? ==> w.daemon == Some(env.probe.health))
    && w'.manifest == e.manifest
    && (w'.daemon.None? || (e.spawned.Some? && SiblingDaemon(sibling, w'.daemon)) || (w'.daemon == w.daemon && (e.stopped.None? || e.spawned.None?)))
  }

  predicate Replaces(config: Config, w: World, env: Env) {
    var e := Ensure(config, w.manifest, env);
    e.stopped.Some? && e.spawned.Some?
  }

  ghost predicate HonestRun(sibling: Candidate, config: Config, worlds: seq<World>, envs: seq<Env>) {
    && |worlds| == |envs| + 1
    && forall i :: 0 <= i < |envs| ==> HonestCall(sibling, config, worlds[i], envs[i], worlds[i + 1])
  }

  lemma {:induction false} UpToDateForever(sibling: Candidate, config: Config, worlds: seq<World>, envs: seq<Env>, i: nat, j: nat)
    requires HonestRun(sibling, config, worlds, envs) && i <= j < |worlds| && UpToDate(sibling, worlds[i].daemon)
    ensures UpToDate(sibling, worlds[j].daemon)
  {
    if i < j {
      UpToDateForever(sibling, config, worlds, envs, i, j - 1);
    }
  }

  /** Over any number of calls the daemon is replaced at most once; from then on it is reused or restarted, never stopped. */
  lemma ReplacedAtMostOnce(sibling: Candidate, config: Config, worlds: seq<World>, envs: seq<Env>, i: nat, j: nat)
    requires HonestRun(sibling, config, worlds, envs) && i < j < |envs|
    requires Replaces(config, worlds[i], envs[i])
    ensures Ensure(config, worlds[j].manifest, envs[j]).stopped.None?
    ensures Probes(worlds[j].manifest, envs[j]) && envs[j].probe.Healthy? ==>
              Ensure(config, worlds[j].manifest, envs[j]).spawned.None?
  {
    assert UpToDate(sibling, worlds[i + 1].daemon);
    UpToDateForever(sibling, config, worlds, envs, i + 1, j);
    assert HonestCall(sibling, config, worlds[j], envs[j], worlds[j + 1]);
    forall h ensures Ensure(config, worlds[j].manifest, envs[j]).stopped != Some(h) {
      StopsExactlyWhen(config, worlds[j].manifest, envs[j], h);
    }
  }

  // ---------------------------------------------------------------------------------------
  // The package upgrader
  // ---------------------------------------------------------------------------------------

  datatype Upgrade = Preserved | Restarted | Refused

  /** `reconcile_daemon_after_upgrade`: the manifest left, the daemon asked to stop, and the verdict. */
  function Reconcile(config: Config, disk: Option<Manifest>, env: Env, installed: Candidate): (Option<Manifest>, Option<Health>, Upgrade) {
    if disk.None? then (disk, None, Preserved)
    else
      var m := disk.value;
      var origin := if config.daemonPath.Some? then Override else EffectiveOrigin(m, env.managedPath, installed.path);
      if m.endpoint.None? then (disk, None, if Owned(origin) then Refused else Preserved)
      else
        match env.probe
        case Unreachable => (disk, None, Preserved)
        case Healthy(h) =>
          if !Owned(origin) then (disk, None, Preserved)
          else if installed.version.None? || h.version.None? then (disk, None, Refused)
          else if h.version.value > installed.version.value then (disk, None, Preserved)
          else if h.version == installed.version && h.capable then (disk, None, Preserved)
          else if h.version == installed.version && installed.advertises != Some(true) then (disk, None, Refused)
          else if installed.path !in env.present then (disk, None, Refused)
          else if !env.shutdownOk || env.spawn.None? || env.exited then (disk, Some(h), Refused)
          else if env.Awaited().Healthy? && env.Awaited().health.version == installed.version && env.saveOk then
            (Some(Manifest(Sibling, installed.path, installed.version, env.spawn.value, m.endpoint, m.model)), Some(h), Restarted)
          else (disk, Some(h), Refused)
        case TimedOut => (disk, None, Refused)
        case Broken => (disk, None, Refused)
        case _ => (disk, None, if Owned(origin) then Refused else Preserved)
  }

  /** A restarted daemon reports what its binary advertises. */
  predicate RestartIsHonest(env: Env, installed: Candidate) {
    installed.advertises.Some? ==> env.Awaited().Healthy? && env.Awaited().health.capable == installed.advertises.value
  }

  /**
   The upgrader stops only owned daemons that the installed one outranks. It rewrites the manifest only for a completed
   restart of exactly the installed version at the same endpoint, and such a restart is a strict rise.
   */
  lemma UpgradeRaises(config: Config, disk: Option<Manifest>, env: Env, installed: Candidate)
    ensures var (m, stopped, verdict) := Reconcile(config, disk, env, installed);
            && (stopped.Some? ==>
                && disk.Some? && env.probe == Healthy(stopped.value) && config.daemonPath.None?
                && Owned(EffectiveOrigin(disk.value, env.managedPath, installed.path))
                && installed.version.Some?
                && Outranks(installed.version.value, installed.advertises == Some(true), stopped.value))
            && (m != disk ==> verdict.Restarted?)
            && (verdict.Restarted? ==>
                && stopped.Some? && m.Some? && m.value.version == installed.version
                && m.value.endpoint == disk.value.endpoint && m.value.model == disk.value.model
                && Some(m.value.pid) == env.spawn
                && env.Awaited().Healthy? && env.Awaited().health.version == installed.version)
            && (verdict.Restarted? && RestartIsHonest(env, installed) ==>
                && stopped.Some? && env.Awaited().Healthy? && env.Awaited().health.version.Some?
                && Outranks(env.Awaited().health.version.value, env.Awaited().health.capable, stopped.value))
  {
  }

  /** The upgrader stops a daemon, completes a restart, or leaves everything alone, exactly in these cases; otherwise it refuses. */
  lemma ReconcilesExactly(config: Config, disk: Option<Manifest>, env: Env, installed: Candidate)
    ensures var (m, stopped, verdict) := Reconcile(config, disk, env, installed);
            var reachable := disk.Some? && disk.value.endpoint.Some?;
            var owned := disk.Some? && config.daemonPath.None? && Owned(EffectiveOrigin(disk.value, env.managedPath, installed.path));
            && (stopped.Some? <==>
                && reachable && owned && env.probe.Healthy? && installed.version.Some? && installed.path in env.present
                && Outranks(installed.version.value, installed.advertises == Some(true), env.probe.health))
            && (stopped.Some? ==> stopped == Some(env.probe.health))
            && (verdict.Restarted? <==>
                && stopped.Some? && env.shutdownOk && env.spawn.Some? && !env.exited && env.saveOk
                && env.Awaited().Healthy? && env.Awaited().health.version == installed.version)
            && (verdict.Restarted? ==>
                m == Some(Manifest(Sibling, installed.path, installed.version, env.spawn.value, disk.value.endpoint, disk.value.model)))
            && (!verdict.Restarted? ==> m == disk)
            && (verdict.Preserved? <==>
                || disk.None?
                || (!reachable && !owned)
                || (reachable && env.probe.Unreachable?)
                || (reachable && !owned && (env.probe.Healthy? || env.probe.Incompatible? || env.probe.Invalid?))
                || (reachable && owned && env.probe.Healthy? && installed.version.Some? && env.probe.health.version.Some?
                    && (env.probe.health.version.value > installed.version.value
                        || (env.probe.health.version == installed.version && env.probe.health.capable))))
  {
  }

  /** Before an upgrade exactly the healthy daemons that the package owns are stopped. */
  lemma PreparesExactly(config: Config, disk: Option<Manifest>, env: Env, installed: string, h: Health)
    ensures Prepare(config, disk, env, installed) == Some(h) <==>
            && disk.Some? && disk.value.endpoint.Some? && env.probe == Healthy(h) && config.daemonPath.None?
            && (disk.value.origin == Sibling || disk.value.origin == ManagedDownload
                || (disk.value.origin == Unknown && (disk.value.path == installed || disk.value.path == env.managedPath)))
  {
  }

  /**
   Unlike startup, the upgrader does not compare the pid that the endpoint reports with the process it spawned: if
   another process of the expected version answers, the manifest names a process that is not the one serving.
   */
  lemma UpgradeDoesNotCheckThePid()
    ensures exists disk: Option<Manifest>, env: Env, installed: Candidate ::
      var (m, _, verdict) := Reconcile(Config(None, "m", false), disk, env, installed);
      verdict.Restarted? && m.Some? && env.Awaited().Healthy? && m.value.pid != env.Awaited().health.pid
  {
    var disk := Some(Manifest(Sibling, "/pkg/semanticd", Some(1), 3, Some("sock"), "m"));
    var installed := Candidate("/pkg/semanticd", Some(2), Some(true));
    var env := Env(Never, true, true, Healthy(Health(Some(1), true, 3)), Some(installed), true, {"/pkg/semanticd"}, None, "/home/semanticd",
                   true, Some(2), Some(7), false, [Healthy(Health(Some(2), true, 9))], true);
    assert env.Awaited() == Healthy(Health(Some(2), true, 9));
    var (m, _, verdict) := Reconcile(Config(None, "m", false), disk, env, installed);
    assert verdict.Restarted? && m.Some? && m.value.pid != env.Awaited().health.pid;
  }

  /** `prepare_daemon_for_upgrade`: the daemon asked to stop. */
  function Prepare(config: Config, disk: Option<Manifest>, env: Env, installed: string): Option<Health> {
    if disk.None? || disk.value.endpoint.None? || !env.probe.Healthy? then None
    else
      var origin := if config.daemonPath.Some? then Override else EffectiveOrigin(disk.value, env.managedPath, installed);
      if Owned(origin) then Some(env.probe.health) else None
  }

  /** Neither entry point of the upgrader stops a daemon whose origin, as it stands to the installed binary, is not owned. */
  lemma UpgraderSparesExternal(config: Config, disk: Option<Manifest>, env: Env, installed: Candidate)
    requires config.daemonPath.Some? || (disk.Some? ==> !Owned(EffectiveOrigin(disk.value, env.managedPath, installed.path)))
    ensures Reconcile(config, disk, env, installed).1.None? && Reconcile(config, disk, env, installed).0 == disk
    ensures !Reconcile(config, disk, env, installed).2.Restarted?
    ensures Prepare(config, disk, env, installed.path).None?
  {
  }

  // ---------------------------------------------------------------------------------------
  // Ownership
  // ---------------------------------------------------------------------------------------

  /** Everything that may run against one semantic home. */
  datatype Call =
    | Startup(config: Config, env: Env)
    | Resumption(config: Config, context: Context, env: Env)
    | Reconciliation(config: Config, env: Env, installed: Candidate)
    | Preparation(config: Config, env: Env, binary: string)

  /** The manifest a call leaves, the daemon it asked to stop, and whether it committed a newly spawned process. */
  datatype Performed = Performed(manifest: Option<Manifest>, stopped: Option<Health>, commits: bool)

  function Perform(call: Call, disk: Option<Manifest>): Performed {
    match call
    case Startup(config, env) =>
      var e := Ensure(config, disk, env);
      Performed(e.manifest, e.stopped, e.outcome.Ready? && !e.outcome.reused)
    case Resumption(config, context, env) =>
      var e := Resume(config, context, disk, env).0;
      Performed(e.manifest, e.stopped, e.outcome.Ready? && !e.outcome.reused)
    case Reconciliation(config, env, installed) =>
      var (m, stopped, verdict) := Reconcile(config, disk, env, installed);
      Performed(m, stopped, verdict.Restarted?)
    case Preparation(config, env, binary) =>
      Performed(disk, Prepare(config, disk, env, binary), false)
  }

  /** The call takes a binary at `path` for the package's own. */
  predicate Claims(call: Call, path: string) {
    && call.config.daemonPath.None?
    && match call
       case Startup(_, env) => env.sibling.Some? && (path == env.sibling.value.path || path == env.managedPath)
       case Resumption(_, _, env) => env.sibling.Some? && (path == env.sibling.value.path || path == env.managedPath)
       case Reconciliation(_, env, installed) => path == installed.path || path == env.managedPath
       case Preparation(_, env, binary) => path == binary || path == env.managedPath
  }

  /** An override, a find on the search path, or a manifest of unknown origin whose binary this call does not claim. */
  predicate External(m: Manifest, call: Call) {
    m.origin.Override? || m.origin.OnPath? || (m.origin.Unknown? && !Claims(call, m.path))
  }

  ghost predicate CallsRun(disks: seq<Option<Manifest>>, calls: seq<Call>) {
    && |disks| == |calls| + 1
    && forall i :: 0 <= i < |calls| ==> disks[i + 1] == Perform(calls[i], disks[i]).manifest
  }

  /** No call of any kind stops a daemon that is external to it, or any daemon under an override. */
  lemma StopNeedsOwnership(call: Call, disk: Option<Manifest>)
    ensures Perform(call, disk).stopped.Some? ==> disk.Some? && !External(disk.value, call) && call.config.daemonPath.None?
  {
  }

  /** Until another process is committed, an external manifest keeps its process and its binary, and stays external. */
  lemma ExternalStays(call: Call, disk: Option<Manifest>)
    requires disk.Some? && External(disk.value, call) && !Perform(call, disk).commits
    ensures var m := Perform(call, disk).manifest;
      && m.Some? && m.value.pid == disk.value.pid && m.value.path == disk.value.path
      && (m.value.origin == disk.value.origin || m.value.origin.Override?)
  {
  }

  /**
   On every run of startups, resumptions and upgrader calls, with any configurations: a daemon whose manifest says
   override, search path or unknown is never stopped while it is the one in the manifest, where unknown means that no
   call so far claimed its binary.
   */
  lemma {:induction false} ExternalIsNeverStopped(disks: seq<Option<Manifest>>, calls: seq<Call>, i: nat, j: nat)
    requires CallsRun(disks, calls) && i <= j < |calls| && disks[i].Some?
    requires forall k :: i <= k <= j ==> External(disks[i].value, calls[k])
    requires forall k :: i <= k < j ==> !Perform(calls[k], disks[k]).commits
    ensures disks[j].Some? && disks[j].value.pid == disks[i].value.pid && disks[j].value.path == disks[i].value.path
    ensures disks[j].value.origin == disks[i].value.origin || disks[j].value.origin.Override?
    ensures Perform(calls[j], disks[j]).stopped.None?
  {
    hide Perform, Claims;
    if i < j {
      ExternalIsNeverStopped(disks, calls, i, j - 1);
      ExternalStays(calls[j - 1], disks[j - 1]);
    }
    StopNeedsOwnership(calls[j], disks[j]);
  }

  /**
   A daemon that a startup found on the search path and committed is never stopped, and neither its process nor its
   binary is forgotten, by any run of startups, resumptions and upgrader calls until another process is committed.
   */
  lemma PathDaemonIsNeverStopped(disks: seq<Option<Manifest>>, calls: seq<Call>, i: nat, j: nat)
    requires CallsRun(disks, calls) && i < j < |calls|
    requires calls[i].Startup? && FallsBackToPath(calls[i].config, disks[i], calls[i].env)
    requires Ensure(calls[i].config, disks[i], calls[i].env).spawned.Some? && Perform(calls[i], disks[i]).commits
    requires forall k :: i < k < j ==> !Perform(calls[k], disks[k]).commits
    ensures Perform(calls[j], disks[j]).stopped.None?
    ensures disks[j].Some? && disks[j].value.path == calls[i].env.onPath.value && Some(disks[j].value.pid) == calls[i].env.spawn
  {
    var config, env := calls[i].config, calls[i].env;
    StartsTheRightBinary(config, disks[i], env);
    StartsItProperly(config, disks[i], env);
    StartEndsExactly(config, disks[i], env);
    assert disks[i + 1] == Ensure(config, disks[i], env).manifest;
    hide Perform, Ensure;
    ExternalIsNeverStopped(disks, calls, i + 1, j);
  }

  /** Some startup stops this daemon, with its sibling and managed binary at these paths, if and only if they make it owned. */
  lemma SomeStartupStopsIff(config: Config, m: Manifest, sibling: string, managed: string)
    ensures (exists env: Env ::
              && env.sibling.Some? && env.sibling.value.path == sibling && env.managedPath == managed
              && Ensure(config, Some(m), env).stopped.Some?)
        <==> config.daemonPath.None? && m.endpoint.Some? && Owned(EffectiveOrigin(m, managed, sibling))
  {
    if config.daemonPath.None? && m.endpoint.Some? && Owned(EffectiveOrigin(m, managed, sibling)) {
      var h := Health(Some(1), true, 7);
      var env := Env(Never, true, true, Healthy(h), Some(Candidate(sibling, Some(2), Some(true))), true, {}, None, managed, true,
                     None, None, false, [], true);
      StopsExactlyWhen(config, Some(m), env, h);
    }
  }

  /** A manifest of unknown origin that names the sibling's path counts as owned: the daemon behind it is stopped. */
  lemma UnknownCanBeStopped()
    ensures var m := Manifest(Unknown, "/pkg/semanticd", Some(1), 3, Some("sock"), "m");
      var h := Health(Some(1), true, 3);
      exists env: Env ::
        && env.sibling == Some(Candidate("/pkg/semanticd", Some(2), Some(true))) && env.probe == Healthy(h)
        && Ensure(Config(None, "m", false), Some(m), env).stopped == Some(h)
  {
    var m := Manifest(Unknown, "/pkg/semanticd", Some(1), 3, Some("sock"), "m");
    var h := Health(Some(1), true, 3);
    var env := Env(Never, true, true, Healthy(h), Some(Candidate("/pkg/semanticd", Some(2), Some(true))), true, {}, None, "/home/semanticd",
                   true, Some(2), None, false, [], true);
    assert Ensure(Config(None, "m", false), Some(m), env).stopped == Some(h);
  }

  /**
   Provenance is the manifest's, not the process's. A process started under an override whose start was never
   committed answers at the endpoint of the older, owned manifest; if that manifest names the same binary, the
   process passes the identity check and a later call asks it to stop.
   */
  lemma UncommittedOverrideCanBeStopped()
    ensures exists m: Manifest, h: Health, config1: Config, env1: Env, config2: Config, env2: Env ::
      var e1 := Ensure(config1, Some(m), env1);
      && e1.spawned.Some? && e1.spawned.value.origin.Override? && e1.spawned.value.path == m.path
      && e1.outcome.Pending? && h.pid == e1.spawned.value.pid
      && Ensure(config2, e1.manifest, env2).stopped == Some(h)
  {
    var m := Manifest(Sibling, "/pkg/semanticd", Some(1), 3, Some("sock"), "m");
    var h := Health(Some(1), true, 7);
    var config1 := Config(Some("/pkg/semanticd"), "m", false);
    var env1 := Env(Never, true, true, Unreachable, None, true, {"/pkg/semanticd"}, None, "/home/semanticd", true, Some(1), Some(7), false, [], true);
    var config2 := Config(None, "m", false);
    var env2 := env1.(probe := Healthy(h), sibling := Some(Candidate("/pkg/semanticd", Some(2), Some(true))));
    var e1 := Ensure(config1, Some(m), env1);
    assert Ensure(config2, e1.manifest, env2).stopped == Some(h);
  }
}
