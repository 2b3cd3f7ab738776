/**
 The mutable side of `src/daemon/bootstrap.rs`: the manifest on disk and the continuation that a resumed
 startup updates in place. The methods are proved against the functions of `Bootstrap`.
 */
module PendingBootstraps {
  import opened Wrappers
  import opened Bootstrap

  /** The semantic home, with a record of what was done through it. */
  class Home {
    var manifest: Option<Manifest>
    ghost var spawned: seq<Started>
    ghost var stopped: seq<Health>

    constructor (manifest: Option<Manifest>)
      ensures this.manifest == manifest && spawned == [] && stopped == []
    {
      this.manifest, spawned, stopped := manifest, [], [];
    }
  }

  ghost function AsSeq<T>(o: Option<T>): seq<T> {
    if o.Some? then [o.value] else []
  }

  /** `wait_for_health`: polls until something answers; the deadline passes after the last of `polls`. */
  method WaitForHealth(polls: seq<Probe>) returns (r: Probe)
    ensures r == FirstAnswer(polls)
    ensures forall k :: 0 <= k < |polls| && !polls[k].Unreachable? && (forall i :: 0 <= i < k ==> polls[i].Unreachable?) ==> r == polls[k]
    ensures (forall k :: 0 <= k < |polls| ==> polls[k].Unreachable?) ==> r.TimedOut?
    ensures r.TimedOut? || exists k :: 0 <= k < |polls| && r == polls[k] && forall i :: 0 <= i < k ==> polls[i].Unreachable?
  {
    var attempt := 0;
    assert polls[0..] == polls;
    while attempt < |polls|
      invariant attempt <= |polls|
      invariant forall i :: 0 <= i < attempt ==> polls[i].Unreachable?
      invariant FirstAnswer(polls) == FirstAnswer(polls[attempt..])
    {
      if !polls[attempt].Unreachable? {
        return polls[attempt];
      }
      assert polls[attempt..][1..] == polls[attempt + 1..];
      attempt := attempt + 1;
    }
    return TimedOut;
  }

  class PendingBootstrap {
    const config: Config
    var context: Context

    constructor (config: Config, context: Context)
      ensures this.config == config && this.context == context
    {
      this.config, this.context := config, context;
    }

    method Complete(s: Started, home: Home, env: Env) returns (outcome: Outcome)
      modifies home`manifest
      ensures (home.manifest, outcome) == Bootstrap.Complete(s, old(home.manifest), env)
    {
      if env.cut.AtHealth? {
        return Cancelled;
      }
      var answer := WaitForHealth(env.polls);
      match answer
      case Healthy(h) =>
        if h.pid != s.pid || (s.expected.Some? && h.version != s.expected) || !env.saveOk {
          return Failed;
        }
        var m := Manifest(s.origin, s.path, h.version, s.pid, Some(s.endpoint), s.model);
        home.manifest := Some(m);
        return Ready(m, false, h);
      case TimedOut =>
        return Pending(FromStarted(s));
      case _ =>
        return Failed;
    }

    /** Spawning saves the child's identity in the continuation before anything can be awaited again. */
    method Start(home: Home, ghost stopped: Option<Health>, keepModel: bool, env: Env) returns (outcome: Outcome)
      requires keepModel == (stopped.Some? || config.preferSibling)
      modifies home`manifest, home`spawned, this`context
      ensures var e := Bootstrap.Start(config, old(home.manifest), stopped, env);
              && home.manifest == e.manifest && outcome == e.outcome
              && home.spawned == old(home.spawned) + AsSeq(e.spawned)
              && context == if e.spawned.Some? then FromStarted(e.spawned.value) else old(context)
    {
      var endpoint := if home.manifest.Some? && home.manifest.value.endpoint.Some? then home.manifest.value.endpoint.value else DEFAULT_ENDPOINT;
      var located := LocateBinary(config, home.manifest, env);
      if located.Err? {
        return located.error;
      }
      var (path, origin) := located.value;
      if (origin.Sibling? && env.startVersion.None?) || env.spawn.None? {
        return Failed;
      }
      var model := if keepModel && home.manifest.Some? then home.manifest.value.model else config.model;
      var s := Started(endpoint, path, origin, env.spawn.value, model, if origin.Sibling? then env.startVersion else None);
      home.spawned := home.spawned + [s];
      context := FromStarted(s);
      if env.cut.AtSleep? {
        return Cancelled;
      }
      if env.exited {
        return Failed;
      }
      outcome := Complete(s, home, env);
    }

    method Ensure(home: Home, env: Env) returns (outcome: Outcome)
      modifies home, this`context
      ensures var e := Bootstrap.Ensure(config, old(home.manifest), env);
              && home.manifest == e.manifest && outcome == e.outcome
              && home.spawned == old(home.spawned) + AsSeq(e.spawned)
              && home.stopped == old(home.stopped) + AsSeq(e.stopped)
              && context == if e.spawned.Some? then FromStarted(e.spawned.value) else old(context)
    {
      if env.cut.AtLock? {
        return Cancelled;
      }
      if !env.lockOk || !env.loadOk {
        return Failed;
      }
      if home.manifest.Some? {
        var m := home.manifest.value;
        if m.endpoint.None? {
          return Failed;
        }
        if env.cut.AtProbe? {
          return Cancelled;
        }
        match env.probe {
          case TimedOut =>
            return Pending(FromManifest);
          case Healthy(h) =>
            var origin := OriginInForce(config, m, env);
            var replace := ShouldReplace(origin, env.sibling, h);
            if replace.None? {
              return Failed;
            }
            if !replace.value {
              if !env.saveOk {
                return Failed;
              }
              home.manifest := Some(m.(version := h.version, origin := origin));
              return Ready(home.manifest.value, true, h);
            }
            home.stopped := home.stopped + [h];
            if env.cut.AtShutdown? {
              return Cancelled;
            }
            if !env.shutdownOk {
              return Failed;
            }
            outcome := Start(home, Some(h), true, env);
            return;
          case Unreachable =>
          case _ =>
            return Failed;
        }
      }
      outcome := Start(home, None, config.preferSibling, env);
    }

    method Resume(home: Home, env: Env) returns (outcome: Outcome)
      modifies home, this`context
      ensures var (e, next) := Bootstrap.Resume(config, old(context), old(home.manifest), env);
              && context == next && home.manifest == e.manifest && outcome == e.outcome
              && home.spawned == old(home.spawned) + AsSeq(e.spawned)
              && home.stopped == old(home.stopped) + AsSeq(e.stopped)
      ensures old(context).FromStarted? ==> context == old(context) && home.spawned == old(home.spawned) && home.stopped == old(home.stopped)
      ensures old(context).FromManifest? ==>
        if context.FromStarted? then home.spawned == old(home.spawned) + [context.started] else home.spawned == old(home.spawned)
      ensures home.manifest != old(home.manifest) ==> outcome.Ready? && home.manifest == Some(outcome.manifest)
    {
      ManifestIsEarned(config, context, home.manifest, env);
      match context
      case FromManifest =>
        outcome := Ensure(home, env);
        if outcome.Pending? {
          PendingNamesItsProcess(config, old(home.manifest), env);
          context := outcome.context;
        }
      case FromStarted(s) =>
        if env.cut.AtLock? {
          return Cancelled;
        }
        if !env.lockOk {
          return Failed;
        }
        outcome := Complete(s, home, env);
    }
  }

  /**
   `PendingDaemonBootstrap` (`src/tools/mod.rs`): startup is resumed until it succeeds once; afterwards only the last
   health seen is refreshed, and only while it lacks a capability. `client` is that health, once there is a client.
   */
  class DeferredClient {
    const bootstrap: PendingBootstrap
    var client: Option<Health>

    constructor (bootstrap: PendingBootstrap)
      ensures this.bootstrap == bootstrap && client == None
    {
      this.bootstrap, this.client := bootstrap, None;
    }

    /** `require_semantic_capabilities`: an accepted observation is trusted, a negative one is replaced by a fresh read. */
    method RequireCapabilities(fetched: Option<Health>) returns (ok: bool)
      requires client.Some?
      modifies this`client
      ensures client == if old(client.value.capable) || fetched.None? then old(client) else fetched
      ensures ok <==> client.value.capable
    {
      if client.value.capable {
        return true;
      }
      if fetched.None? {
        return false;
      }
      client := fetched;
      return fetched.value.capable;
    }

    /** Startup is resumed exactly while there is no client; the client survives a missing capability. */
    method Resolve(home: Home, env: Env, fetched: Option<Health>) returns (ok: bool)
      modifies home, bootstrap`context, this`client
      ensures old(client).Some? ==>
        && home.manifest == old(home.manifest) && home.spawned == old(home.spawned) && home.stopped == old(home.stopped)
        && bootstrap.context == old(bootstrap.context) && client.Some?
      ensures old(client).None? ==>
        var (e, next) := Bootstrap.Resume(bootstrap.config, old(bootstrap.context), old(home.manifest), env);
        && bootstrap.context == next && home.manifest == e.manifest
        && home.spawned == old(home.spawned) + AsSeq(e.spawned) && home.stopped == old(home.stopped) + AsSeq(e.stopped)
        && (client.Some? <==> e.outcome.Ready?)
        && (client.Some? ==> client.value == e.outcome.health || (!e.outcome.health.capable && Some(client.value) == fetched))
      ensures ok <==> client.Some? && client.value.capable
    {
      if client.None? {
        var outcome := bootstrap.Resume(home, env);
        if !outcome.Ready? {
          return false;
        }
        client := Some(outcome.health);
      }
      ok := RequireCapabilities(fetched);
    }
  }
}
