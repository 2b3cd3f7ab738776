/**
 The semantic daemon's client (`src/client/semantic_daemon.rs`): the check every connection passes before it carries
 content, and the retry loop around it.

 A run leaves a trace of what the client did. What the daemon and the network answer is a script, one entry per
 attempt; a deadline fires during one of the attempt's awaits.
 */
module DaemonClient {
  import opened Wrappers

  const API_VERSION := 2
  const SOURCE_EVIDENCE := "semantic_source_evidence_v1"
  const SCOPED_INDEXING := "scoped_indexing_v1"

  /** `Duration::MAX`, in nanoseconds: all seconds of 64 bits, and a billion less one nanoseconds. */
  const MAX_DURATION: nat := 0x1_0000_0000_0000_0000 * 1_000_000_000 - 1

  datatype Health = Health(apiVersion: nat, capabilities: seq<string>)

  datatype Error = Ipc | Unavailable | Timeout | Protocol | Incompatible | Unsupported | Rpc(code: int)

  datatype Method = HealthMethod | Shutdown | EnsureVault | Content

  datatype Read<T> = Lost | Garbled | Line(id: nat, body: Result<T, int>)

  datatype Connecting = Connected | Refused | Broken

  /** What happens to one attempt; `deadline` counts the awaits completed before time runs out. */
  datatype Attempt = Attempt(
    connecting: Connecting,
    probeSent: bool,
    probeRead: Read<Health>,
    sent: bool,
    read: Read<nat>,
    deadline: Option<nat>)

  datatype Event =
    | Connect
    | Probe(id: nat)
    | Observed(health: Health)
    | Sending(call: Method, id: nat)
    | Delivered(call: Method)
    | Sleep(nanos: nat)

  predicate Accepted(h: Health) {
    h.apiVersion == API_VERSION && SOURCE_EVIDENCE in h.capabilities && SCOPED_INDEXING in h.capabilities
  }

  function ValidateSemantics(h: Health): (r: Result<(), Error>)
    ensures r.Ok? <==> Accepted(h)
    ensures r.Ok? <==> h.apiVersion == 2 && "semantic_source_evidence_v1" in h.capabilities && "scoped_indexing_v1" in h.capabilities
    ensures r == Err(Incompatible) <==> h.apiVersion != 2
    ensures r.Err? ==> r.error.Incompatible? || r.error.Unsupported?
  {
    if h.apiVersion != API_VERSION then Err(Incompatible)
    else if SOURCE_EVIDENCE !in h.capabilities || SCOPED_INDEXING !in h.capabilities then Err(Unsupported)
    else Ok(())
  }

  predicate Retryable(e: Error) {
    e.Ipc? || e.Unavailable? || e.Timeout?
  }

  /** Health reads and shutdown go to any daemon. */
  predicate Gated(m: Method) {
    !m.HealthMethod? && !m.Shutdown?
  }

  function ParseResponse<T>(read: Read<T>, expected: nat): Result<T, Error> {
    match read
    case Lost => Err(Ipc)
    case Garbled => Err(Protocol)
    case Line(id, body) =>
      if id != expected then Err(Protocol)
      else if body.Err? then Err(Rpc(body.error))
      else Ok(body.value)
  }

  /** The deadline fires during await number `stage`. */
  predicate Late(a: Attempt, stage: nat) {
    a.deadline.Some? && a.deadline.value <= stage
  }

  /** One attempt: its result, what it did, the ids it used up and the health it saw. */
  datatype Once = Once(result: Result<nat, Error>, events: seq<Event>, used: nat, health: Option<Health>)

  /** Sending the request itself, and reading its reply; only `ensure_vault` reads without a deadline. */
  function Exchange(m: Method, a: Attempt, id: nat): Once {
    var sending := [Sending(m, id)];
    if Late(a, 3) then Once(Err(Timeout), sending, 1, None)
    else if !a.sent then Once(Err(Ipc), sending, 1, None)
    else if !m.EnsureVault? && Late(a, 4) then Once(Err(Timeout), sending + [Delivered(m)], 1, None)
    else Once(ParseResponse(a.read, id), sending + [Delivered(m)], 1, None)
  }

  function Attempted(m: Method, a: Attempt, id: nat): Once {
    if Late(a, 0) then Once(Err(Timeout), [Connect], 0, None)
    else if a.connecting.Refused? then Once(Err(Unavailable), [Connect], 0, None)
    else if a.connecting.Broken? then Once(Err(Ipc), [Connect], 0, None)
    else if !Gated(m) then
      var e := Exchange(m, a, id);
      e.(events := [Connect] + e.events)
    else if Late(a, 1) then Once(Err(Timeout), [Connect, Probe(id)], 1, None)
    else if !a.probeSent then Once(Err(Ipc), [Connect, Probe(id)], 1, None)
    else if Late(a, 2) then Once(Err(Timeout), [Connect, Probe(id)], 1, None)
    else
      match ParseResponse(a.probeRead, id)
      case Err(e) => Once(Err(e), [Connect, Probe(id)], 1, None)
      case Ok(h) =>
        match ValidateSemantics(h)
        case Err(e) => Once(Err(e), [Connect, Probe(id), Observed(h)], 1, Some(h))
        case Ok(_) =>
          var e := Exchange(m, a, id + 1);
          Once(e.result, [Connect, Probe(id), Observed(h)] + e.events, 2, Some(h))
  }

  datatype Policy = Policy(retries: nat, backoff: nat)

  function SaturatingMul(backoff: nat, times: nat): (r: nat)
    ensures r == if backoff * times <= 18_446_744_073_709_551_615_999_999_999 then backoff * times else 18_446_744_073_709_551_615_999_999_999
  {
    if backoff * times <= MAX_DURATION then backoff * times else MAX_DURATION
  }

  /** A whole request: its last result, its trace, and how often it was retried. */
  datatype Outcome = Outcome(result: Result<nat, Error>, events: seq<Event>, retries: nat)

  /** The request from its `k`-th retry on. */
  function Requested(m: Method, script: seq<Attempt>, p: Policy, k: nat, id: nat): Outcome
    requires k <= p.retries < |script|
    decreases p.retries - k
  {
    var once := Attempted(m, script[k], id);
    if once.result.Err? && k < p.retries && Retryable(once.result.error) then
      var rest := Requested(m, script, p, k + 1, id + once.used);
      Outcome(rest.result, once.events + [Sleep(SaturatingMul(p.backoff, k + 1))] + rest.events, rest.retries)
    else Outcome(once.result, once.events, k)
  }

  class Client {
    const policy: Policy
    var nextId: nat
    var health: Option<Health>
    ghost var trace: seq<Event>

    constructor (policy: Policy)
      ensures this.policy == policy && nextId == 1 && health == None && trace == []
    {
      this.policy := policy;
      nextId := 1;
      health := None;
      trace := [];
    }

    method SendRequest() returns (id: nat)
      modifies `nextId
      ensures id == old(nextId) && nextId == id + 1
    {
      id := nextId;
      nextId := nextId + 1;
    }

    /** `call_once`: every await may be cut short by the deadline. */
    method CallOnce(m: Method, a: Attempt) returns (r: Result<nat, Error>)
      modifies this
      ensures var once := Attempted(m, a, old(nextId));
        && r == once.result
        && trace == old(trace) + once.events
        && nextId == old(nextId) + once.used
        && health == if once.health.Some? then once.health else old(health)
    {
      trace := trace + [Connect];
      if Late(a, 0) {
        return Err(Timeout);
      }
      if a.connecting != Connected {
        return Err(if a.connecting == Refused then Unavailable else Ipc);
      }
      if Gated(m) {
        var probe := SendRequest();
        trace := trace + [Probe(probe)];
        if Late(a, 1) {
          return Err(Timeout);
        }
        if !a.probeSent {
          return Err(Ipc);
        }
        if Late(a, 2) {
          return Err(Timeout);
        }
        var read := ParseResponse(a.probeRead, probe);
        if read.Err? {
          return Err(read.error);
        }
        var accepted := ValidateSemantics(read.value);
        health := Some(read.value);
        trace := trace + [Observed(read.value)];
        if accepted.Err? {
          return Err(accepted.error);
        }
      }
      var id := SendRequest();
      trace := trace + [Sending(m, id)];
      if Late(a, 3) {
        return Err(Timeout);
      }
      if !a.sent {
        return Err(Ipc);
      }
      trace := trace + [Delivered(m)];
      if m != EnsureVault && Late(a, 4) {
        return Err(Timeout);
      }
      return ParseResponse(a.read, id);
    }

    method Request(m: Method, script: seq<Attempt>) returns (r: Result<nat, Error>)
      requires policy.retries < |script|
      modifies this
      ensures var outcome := Requested(m, script, policy, 0, old(nextId));
        r == outcome.result && trace == old(trace) + outcome.events
    {
      hide Attempted, SaturatingMul;
      ghost var whole := Requested(m, script, policy, 0, nextId);
      var retries := 0;
      while true
        invariant retries <= policy.retries
        invariant whole.result == Requested(m, script, policy, retries, nextId).result
        invariant old(trace) + whole.events == trace + Requested(m, script, policy, retries, nextId).events
        decreases policy.retries - retries
      {
        ghost var before, id := trace, nextId;
        ghost var rest := Requested(m, script, policy, retries, id);
        r := CallOnce(m, script[retries]);
        ghost var done := Attempted(m, script[retries], id).events;
        if r.Err? && retries < policy.retries && Retryable(r.error) {
          retries := retries + 1;
          trace := trace + [Sleep(SaturatingMul(policy.backoff, retries))];
          ghost var later := Requested(m, script, policy, retries, nextId).events;
          assert rest.events == done + [Sleep(SaturatingMul(policy.backoff, retries))] + later;
          Regrouped(before, done, [Sleep(SaturatingMul(policy.backoff, retries))], later);
        } else {
          return;
        }
      }
    }
  }

  lemma Regrouped(a: seq<Event>, b: seq<Event>, c: seq<Event>, d: seq<Event>)
    ensures a + (b + c + d) == (a + b + c) + d
  {
  }

  // ---------------------------------------------------------------------------------------
  // How an attempt ends
  // ---------------------------------------------------------------------------------------

  predicate Reaches(a: Attempt) {
    a.connecting.Connected? && !Late(a, 0)
  }

  /** The reply to the probe arrived in time. */
  predicate ProbeArrives(m: Method, a: Attempt) {
    Gated(m) && Reaches(a) && a.probeSent && !Late(a, 2) && !a.probeRead.Lost?
  }

  /** A reply that belongs to its request and reports a health. */
  predicate Reports(read: Read<Health>, id: nat) {
    read.Line? && read.id == id && read.body.Ok?
  }

  /** The request itself may be sent: it needs no check, or the check was passed. */
  predicate Cleared(m: Method, a: Attempt, id: nat) {
    && Reaches(a)
    && (Gated(m) ==> ProbeArrives(m, a) && Reports(a.probeRead, id) && Accepted(a.probeRead.body.value))
  }

  /** The reply to the request arrived, in time unless it attaches a vault. */
  predicate ReplyArrives(m: Method, a: Attempt, id: nat) {
    Cleared(m, a, id) && a.sent && !Late(a, 3) && (m.EnsureVault? || !Late(a, 4)) && !a.read.Lost?
  }

  /** The daemon gave an answer that settles the attempt, whatever it says. */
  predicate Settled(m: Method, a: Attempt, id: nat) {
    || (ProbeArrives(m, a) && !Cleared(m, a, id))
    || ReplyArrives(m, a, id)
  }

  /** An attempt is worth repeating exactly if the daemon never answered it, and an answer is never asked for again. */
  lemma RetriesExactlyWhen(m: Method, a: Attempt, id: nat, p: Policy, k: nat)
    ensures Retries(Attempted(m, a, id), p, k) <==> k < p.retries && !Settled(m, a, id)
  {
    hide Accepted;
  }

  /** What kept the daemon from answering is what the error says. */
  lemma UnansweredFailsWith(m: Method, a: Attempt, id: nat)
    requires !Settled(m, a, id)
    ensures var r := Attempted(m, a, id).result;
      && r.Err?
      && (r.error.Unavailable? <==> !Late(a, 0) && a.connecting.Refused?)
      && (r.error.Timeout? <==>
          || Late(a, 0)
          || (Reaches(a) && Gated(m) && (Late(a, 1) || (a.probeSent && Late(a, 2))))
          || (Cleared(m, a, id) && (Late(a, 3) || (a.sent && !m.EnsureVault? && Late(a, 4)))))
      && (r.error.Ipc? <==> !r.error.Unavailable? && !r.error.Timeout?)
  {
    hide Accepted;
  }

  /** What a settled attempt returns: the daemon's own value or error, or what its health or its line lacks. */
  lemma AnsweredReturns(m: Method, a: Attempt, id: nat)
    requires Settled(m, a, id)
    ensures var once := Attempted(m, a, id); var r := once.result;
      if ReplyArrives(m, a, id) then
        var own := if Gated(m) then id + 1 else id;
        r == if a.read.Garbled? || a.read.id != own then Err(Protocol)
             else if a.read.body.Err? then Err(Rpc(a.read.body.error))
             else Ok(a.read.body.value)
      else if a.probeRead.Garbled? || a.probeRead.id != id then r == Err(Protocol)
      else if a.probeRead.body.Err? then r == Err(Rpc(a.probeRead.body.error))
      else if a.probeRead.body.value.apiVersion != 2 then r == Err(Incompatible)
      else r == Err(Unsupported)
  {
  }

  /** A health that was reported is remembered, whether or not it was accepted, and nothing else is. */
  lemma RemembersHealth(m: Method, a: Attempt, id: nat)
    ensures Attempted(m, a, id).health ==
      if ProbeArrives(m, a) && Reports(a.probeRead, id) then Some(a.probeRead.body.value) else None
  {
  }

  // ---------------------------------------------------------------------------------------
  // The capability gate
  // ---------------------------------------------------------------------------------------

  /** The connection in use at position `i` of a trace passed the check: it answered its probe with an accepted health. */
  ghost predicate CheckedAt(events: seq<Event>, i: nat)
    requires i <= |events|
  {
    exists c, j :: 0 <= c < j < i && events[c].Connect? && events[j].Observed? && Accepted(events[j].health)
      && forall k :: c < k < i ==> !events[k].Connect?
  }

  /** Nothing gated is sent on a connection that was not checked. */
  ghost predicate Guarded(events: seq<Event>) {
    forall i :: 0 <= i < |events| && events[i].Sending? && Gated(events[i].call) ==> CheckedAt(events, i)
  }

  lemma OnceIsGuarded(m: Method, a: Attempt, id: nat)
    ensures Guarded(Attempted(m, a, id).events)
  {
    var events := Attempted(m, a, id).events;
    forall i | 0 <= i < |events| && events[i].Sending? && Gated(events[i].call) ensures CheckedAt(events, i) {
      assert i == 3 && events[0].Connect? && events[2].Observed? && Accepted(events[2].health);
    }
  }

  lemma OnceShape(m: Method, a: Attempt, id: nat)
    ensures var events := Attempted(m, a, id).events;
      && events != [] && events[0].Connect?
      && forall k :: 0 < k < |events| ==> !events[k].Connect? && !events[k].Sleep?
  {
  }

  lemma GuardedConcat(a: seq<Event>, b: seq<Event>)
    requires Guarded(a) && Guarded(b)
    ensures Guarded(a + b)
  {
    var all := a + b;
    forall i | 0 <= i < |all| && all[i].Sending? && Gated(all[i].call) ensures CheckedAt(all, i) {
      if i < |a| {
        assert CheckedAt(a, i);
        var c, j :| 0 <= c < j < i && a[c].Connect? && a[j].Observed? && Accepted(a[j].health)
          && forall k :: c < k < i ==> !a[k].Connect?;
        assert all[c] == a[c] && all[j] == a[j];
      } else {
        assert b[i - |a|] == all[i];
        var c, j :| 0 <= c < j < i - |a| && b[c].Connect? && b[j].Observed? && Accepted(b[j].health)
          && forall k :: c < k < i - |a| ==> !b[k].Connect?;
        assert all[|a| + c] == b[c] && all[|a| + j] == b[j];
        forall k | |a| + c < k < i ensures !all[k].Connect? {
          assert all[k] == b[k - |a|];
        }
      }
    }
  }

  lemma PauseIsGuarded(e: Event)
    requires e.Sleep?
    ensures Guarded([e])
  {
  }

  /** An attempt is retried while retries are left and its error may pass. */
  predicate Retries(once: Once, p: Policy, k: nat) {
    once.result.Err? && k < p.retries && Retryable(once.result.error)
  }

  lemma RequestStep(m: Method, script: seq<Attempt>, p: Policy, k: nat, id: nat)
    requires k <= p.retries < |script|
    ensures var o, once := Requested(m, script, p, k, id), Attempted(m, script[k], id);
      if Retries(once, p, k) then
        var rest := Requested(m, script, p, k + 1, id + once.used);
        && o.events == once.events + [Sleep(SaturatingMul(p.backoff, k + 1))] + rest.events
        && o.result == rest.result && o.retries == rest.retries
      else o.events == once.events && o.result == once.result && o.retries == k
  {
    hide Attempted, SaturatingMul;
  }

  /** On every run, content is sent only on a connection whose own health reply was accepted. */
  lemma {:induction false} ContentOnlyOnCheckedConnections(m: Method, script: seq<Attempt>, p: Policy, k: nat, id: nat)
    requires k <= p.retries < |script|
    ensures Guarded(Requested(m, script, p, k, id).events)
    decreases p.retries - k
  {
    hide Attempted, SaturatingMul, Guarded, Requested;
    var once := Attempted(m, script[k], id);
    OnceIsGuarded(m, script[k], id);
    RequestStep(m, script, p, k, id);
    if Retries(once, p, k) {
      ContentOnlyOnCheckedConnections(m, script, p, k + 1, id + once.used);
      var pause := Sleep(SaturatingMul(p.backoff, k + 1));
      PauseIsGuarded(pause);
      GuardedConcat(once.events, [pause]);
      GuardedConcat(once.events + [pause], Requested(m, script, p, k + 1, id + once.used).events);
    }
  }

  /** A reply is taken only if it bears the id of the very request it answers. */
  lemma RepliesMatchTheirRequest(m: Method, a: Attempt, id: nat)
    requires Attempted(m, a, id).result.Ok?
    ensures var once := Attempted(m, a, id);
      && a.read == Line(id + once.used - 1, Ok(once.result.value))
      && Sending(m, id + once.used - 1) in once.events
      && (Gated(m) ==> once.health.Some? && Accepted(once.health.value) && a.probeRead == Line(id, Ok(once.health.value)))
  {
    var once := Attempted(m, a, id);
    assert once.events[if Gated(m) then 3 else 1] == Sending(m, id + once.used - 1);
  }

  /** Once `ensure_vault` is delivered no deadline ends it: the live connection owns the scan. */
  lemma DeliveredAttachmentNeverTimesOut(a: Attempt, id: nat)
    ensures Delivered(EnsureVault) in Attempted(EnsureVault, a, id).events ==> Attempted(EnsureVault, a, id).result != Err(Timeout)
  {
    assert Delivered(EnsureVault) in Exchange(EnsureVault, a, id + 1).events ==> !Late(a, 3);
  }

  // ---------------------------------------------------------------------------------------
  // Retries
  // ---------------------------------------------------------------------------------------

  function Connections(events: seq<Event>): nat {
    if events == [] then 0 else (if events[0].Connect? then 1 else 0) + Connections(events[1..])
  }

  function Pauses(events: seq<Event>): seq<nat> {
    if events == [] then [] else (if events[0].Sleep? then [events[0].nanos] else []) + Pauses(events[1..])
  }

  lemma {:induction false} ConnectionsConcat(a: seq<Event>, b: seq<Event>)
    ensures Connections(a + b) == Connections(a) + Connections(b)
  {
    if a == [] {
      assert a + b == b;
    } else {
      ConnectionsConcat(a[1..], b);
      assert (a + b)[1..] == a[1..] + b;
    }
  }

  lemma {:induction false} PausesConcat(a: seq<Event>, b: seq<Event>)
    ensures Pauses(a + b) == Pauses(a) + Pauses(b)
  {
    if a == [] {
      assert a + b == b;
    } else {
      PausesConcat(a[1..], b);
      assert (a + b)[0] == a[0] && (a + b)[1..] == a[1..] + b;
      var head: seq<nat> := if a[0].Sleep? then [a[0].nanos] else [];
      assert head + (Pauses(a[1..]) + Pauses(b)) == (head + Pauses(a[1..])) + Pauses(b);
    }
  }

  lemma {:induction false} QuietCounts(events: seq<Event>)
    requires forall k :: 0 <= k < |events| ==> !events[k].Connect? && !events[k].Sleep?
    ensures Connections(events) == 0 && Pauses(events) == []
  {
    if events != [] {
      QuietCounts(events[1..]);
    }
  }

  /** The pauses before the retries after the `lo`-th up to the `hi`-th. */
  function Backoffs(p: Policy, lo: nat, hi: nat): (r: seq<nat>)
    requires lo <= hi
    ensures |r| == hi - lo
    ensures forall i :: 0 <= i < |r| ==> r[i] == SaturatingMul(p.backoff, lo + i + 1)
    decreases hi - lo
  {
    if lo == hi then [] else [SaturatingMul(p.backoff, lo + 1)] + Backoffs(p, lo + 1, hi)
  }

  lemma OnceCounts(m: Method, a: Attempt, id: nat)
    ensures Connections(Attempted(m, a, id).events) == 1 && Pauses(Attempted(m, a, id).events) == []
  {
    OnceShape(m, a, id);
    hide Attempted;
    QuietCounts(Attempted(m, a, id).events[1..]);
  }

  lemma PauseCounts(nanos: nat)
    ensures Connections([Sleep(nanos)]) == 0 && Pauses([Sleep(nanos)]) == [nanos]
  {
    assert [Sleep(nanos)][1..] == [];
  }

  /** At most retries + 1 connections, one pause before each retry, each a further multiple of the backoff. */
  lemma {:induction false} AttemptsAreBounded(m: Method, script: seq<Attempt>, p: Policy, k: nat, id: nat)
    requires k <= p.retries < |script|
    ensures var o := Requested(m, script, p, k, id);
      && k <= o.retries <= p.retries
      && Connections(o.events) == o.retries - k + 1
      && Pauses(o.events) == Backoffs(p, k, o.retries)
    decreases p.retries - k
  {
    hide Attempted, SaturatingMul, Requested, Connections, Pauses;
    var once := Attempted(m, script[k], id);
    OnceCounts(m, script[k], id);
    RequestStep(m, script, p, k, id);
    if Retries(once, p, k) {
      AttemptsAreBounded(m, script, p, k + 1, id + once.used);
      var nanos := SaturatingMul(p.backoff, k + 1);
      var rest := Requested(m, script, p, k + 1, id + once.used);
      PauseCounts(nanos);
      ConnectionsConcat(once.events, [Sleep(nanos)]);
      ConnectionsConcat(once.events + [Sleep(nanos)], rest.events);
      PausesConcat(once.events, [Sleep(nanos)]);
      PausesConcat(once.events + [Sleep(nanos)], rest.events);
      assert [] + [nanos] == [nanos];
      assert Backoffs(p, k, rest.retries) == [nanos] + Backoffs(p, k + 1, rest.retries);
    }
  }

  /** Ids an attempt with this script would start from. */
  function IdAt(m: Method, script: seq<Attempt>, k: nat, id: nat, j: nat): nat
    requires k <= j <= |script|
    decreases j
  {
    if j == k then id else IdAt(m, script, k, id, j - 1) + Attempted(m, script[j - 1], IdAt(m, script, k, id, j - 1)).used
  }

  lemma {:induction false} IdAtNext(m: Method, script: seq<Attempt>, k: nat, id: nat, j: nat)
    requires k < j <= |script|
    ensures IdAt(m, script, k, id, j) == IdAt(m, script, k + 1, id + Attempted(m, script[k], id).used, j)
    decreases j
  {
    if j > k + 1 {
      IdAtNext(m, script, k, id, j - 1);
    }
  }

  /** The `j`-th attempt of a request that is at retry `k` with id `id`. */
  function AttemptAt(m: Method, script: seq<Attempt>, k: nat, id: nat, j: nat): Once
    requires k <= j < |script|
  {
    Attempted(m, script[j], IdAt(m, script, k, id, j))
  }

  lemma AttemptAtNext(m: Method, script: seq<Attempt>, k: nat, id: nat, j: nat)
    requires k < j < |script|
    ensures AttemptAt(m, script, k, id, j) == AttemptAt(m, script, k + 1, id + Attempted(m, script[k], id).used, j)
  {
    IdAtNext(m, script, k, id, j);
  }

  /** The request ends with its last attempt, the first that succeeds, fails for good or exhausts the retries. */
  lemma {:induction false} StopsAtTheFirstFinalAttempt(m: Method, script: seq<Attempt>, p: Policy, k: nat, id: nat)
    requires k <= p.retries < |script|
    ensures var o := Requested(m, script, p, k, id);
      && k <= o.retries <= p.retries
      && o.result == AttemptAt(m, script, k, id, o.retries).result
      && !Retries(AttemptAt(m, script, k, id, o.retries), p, o.retries)
      && forall j :: k <= j < o.retries ==> Retries(AttemptAt(m, script, k, id, j), p, j)
    decreases p.retries - k
  {
    var once := Attempted(m, script[k], id);
    RequestStep(m, script, p, k, id);
    assert AttemptAt(m, script, k, id, k) == once;
    hide *;
    if Retries(once, p, k) {
      RetriesMeans(once, p, k);
      StopsAtTheFirstFinalAttempt(m, script, p, k + 1, id + once.used);
      forall j | k < j <= Requested(m, script, p, k, id).retries
        ensures AttemptAt(m, script, k, id, j) == AttemptAt(m, script, k + 1, id + once.used, j)
      {
        AttemptAtNext(m, script, k, id, j);
      }
    }
  }

  lemma RetriesMeans(once: Once, p: Policy, k: nat)
    requires Retries(once, p, k)
    ensures k < p.retries
  {
  }

  function Sum(s: seq<nat>): nat {
    if s == [] then 0 else Sum(s[..|s| - 1]) + s[|s| - 1]
  }

  lemma {:induction false} BackoffsPrefix(p: Policy, k: nat)
    requires k > 0
    ensures Backoffs(p, 0, k)[..k - 1] == Backoffs(p, 0, k - 1)
    ensures Backoffs(p, 0, k)[k - 1] == SaturatingMul(p.backoff, k)
  {
  }

  lemma Triangle(b: nat, k: nat)
    requires k > 0
    ensures b * (k * (k + 1) / 2) == b * ((k - 1) * k / 2) + b * k
  {
    assert k * (k + 1) == (k - 1) * k + 2 * k;
    assert k * (k + 1) / 2 == (k - 1) * k / 2 + k;
  }

  lemma SmallerStillFits(b: nat, k: nat)
    requires k > 0
    ensures b * (k - 1) <= b * k
  {
  }

  /** After k retries the time slept is backoff times k(k + 1)/2 exactly if the last pause does not saturate, and less otherwise. */
  lemma {:induction false} TotalSleep(p: Policy, k: nat)
    ensures Sum(Backoffs(p, 0, k)) <= p.backoff * (k * (k + 1) / 2)
    ensures Sum(Backoffs(p, 0, k)) == p.backoff * (k * (k + 1) / 2) <==> p.backoff * k <= MAX_DURATION
  {
    if k > 0 {
      TotalSleep(p, k - 1);
      BackoffsPrefix(p, k);
      Triangle(p.backoff, k);
      SmallerStillFits(p.backoff, k);
    }
  }

  /** Of a whole request: its pauses, and when they add up to the triangular sum. */
  lemma RequestSleeps(m: Method, script: seq<Attempt>, p: Policy, id: nat)
    requires p.retries < |script|
    ensures var o := Requested(m, script, p, 0, id); var k := o.retries;
      && Connections(o.events) == k + 1 <= p.retries + 1
      && Sum(Pauses(o.events)) <= p.backoff * (k * (k + 1) / 2)
      && (Sum(Pauses(o.events)) == p.backoff * (k * (k + 1) / 2) <==> p.backoff * k <= MAX_DURATION)
  {
    AttemptsAreBounded(m, script, p, 0, id);
    TotalSleep(p, Requested(m, script, p, 0, id).retries);
  }

  // ---------------------------------------------------------------------------------------
  // The policies the program uses
  // ---------------------------------------------------------------------------------------

  const NANOS_PER_MILLI := 1_000_000
  const MAX_RETRIES := 10
  const MIN_BACKOFF_MILLIS := 50
  const MAX_BACKOFF_MILLIS := 60_000

  /** `DaemonConnectPolicy::default`, and the policy under which an owned daemon is asked to shut down. */
  const DEFAULT_POLICY := Policy(2, 250 * NANOS_PER_MILLI)
  const SHUTDOWN_POLICY := Policy(0, 0)

  function Clamp(value: nat, lo: nat, hi: nat): (r: nat)
    requires lo <= hi
    ensures lo <= r <= hi
    ensures lo <= value <= hi ==> r == value
  {
    if value < lo then lo else if value > hi then hi else value
  }

  /** The policy read from the environment, whose variables may be missing or hold any number. */
  function LoadedPolicy(retries: Option<nat>, backoffMillis: Option<nat>): Policy {
    Policy(Clamp(if retries.Some? then retries.value else 2, 0, MAX_RETRIES),
           Clamp(if backoffMillis.Some? then backoffMillis.value else 250, MIN_BACKOFF_MILLIS, MAX_BACKOFF_MILLIS) * NANOS_PER_MILLI)
  }

  predicate Configured(p: Policy) {
    p.retries <= MAX_RETRIES && p.backoff <= MAX_BACKOFF_MILLIS * NANOS_PER_MILLI
  }

  lemma PoliciesAreConfigured(retries: Option<nat>, backoffMillis: Option<nat>)
    ensures Configured(LoadedPolicy(retries, backoffMillis)) && Configured(DEFAULT_POLICY) && Configured(SHUTDOWN_POLICY)
    ensures LoadedPolicy(None, None) == DEFAULT_POLICY == Policy(2, 250_000_000) && SHUTDOWN_POLICY == Policy(0, 0)
    ensures retries.Some? ==> LoadedPolicy(retries, backoffMillis).retries == if retries.value > 10 then 10 else retries.value
    ensures backoffMillis.Some? ==>
      var millis := if backoffMillis.value < 50 then 50 else if backoffMillis.value > 60_000 then 60_000 else backoffMillis.value;
      LoadedPolicy(retries, backoffMillis).backoff == 1_000_000 * millis
  {
  }

  /**
   Under every policy the program uses, a request that is retried k times makes k + 1 connections, at most eleven, and
   sleeps backoff times k(k + 1)/2 in all, at most 55 minutes.
   */
  lemma ConfiguredRequestSleeps(m: Method, script: seq<Attempt>, p: Policy, id: nat)
    requires Configured(p) && p.retries < |script|
    ensures var o := Requested(m, script, p, 0, id); var k := o.retries;
      && Connections(o.events) == k + 1 <= p.retries + 1 <= MAX_RETRIES + 1
      && Sum(Pauses(o.events)) == p.backoff * (k * (k + 1) / 2)
      && Sum(Pauses(o.events)) <= 55 * MAX_BACKOFF_MILLIS * NANOS_PER_MILLI
  {
    RequestSleeps(m, script, p, id);
    SmallPause(p.backoff, Requested(m, script, p, 0, id).retries);
    hide Requested, Connections, Pauses, Sum;
  }

  lemma SmallPause(backoff: nat, k: nat)
    requires backoff <= MAX_BACKOFF_MILLIS * NANOS_PER_MILLI && k <= MAX_RETRIES
    ensures backoff * k <= MAX_DURATION
    ensures backoff * (k * (k + 1) / 2) <= 55 * MAX_BACKOFF_MILLIS * NANOS_PER_MILLI
  {
    var most := MAX_BACKOFF_MILLIS * NANOS_PER_MILLI;
    HalfProduct(k);
    Grows(backoff, most, k, MAX_RETRIES);
    Grows(backoff, most, k * (k + 1) / 2, 55);
  }

  lemma Grows(a: nat, b: nat, i: nat, j: nat)
    requires a <= b && i <= j
    ensures a * i <= b * j
  {
    assert a * i <= b * i <= b * j;
  }

  lemma HalfProduct(k: nat)
    requires k <= 10
    ensures k * (k + 1) / 2 <= 55
  {
    assert k * (k + 1) <= 10 * (k + 1);
  }
}
