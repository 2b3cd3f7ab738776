/**
 The session table of the private-memory reader (`src/memory_http.rs`).

 A request takes the table's lock twice: once to be admitted, and again, after the transport answered, to bind
 or delete its session. Between the two, other requests come and go.
 */
module MemorySessions {
  import opened Wrappers

  const CAPACITY := 1024

  type Id = nat
  type RequestId = nat
  type Digest = nat

  datatype Binding = Binding(token: Digest, policy: Digest, expiresAt: real)

  /** A request between its two critical sections. */
  datatype Flight = Flight(incoming: Option<Id>, binding: Binding, deleting: bool)

  type Table = map<Id, Binding>

  datatype Verdict = Admitted | UnknownSession | Full

  function Retain(t: Table, now: real): Table {
    map id | id in t && t[id].expiresAt > now :: t[id]
  }

  predicate Matches(b: Binding, c: Binding) {
    b.token == c.token && b.policy == c.policy
  }

  /** The first critical section: expired sessions go, then the request is let in or not. */
  function Admit(t: Table, now: real, f: Flight): (Table, Verdict) {
    var live := Retain(t, now);
    match f.incoming
    case Some(id) => (live, if id in live && Matches(live[id], f.binding) then Admitted else UnknownSession)
    case None => (live, if |live| >= CAPACITY then Full else Admitted)
  }

  /** A session that a request with these digests may use now: stored, not expired, and bound to both of them. */
  predicate Serves(t: Table, id: Id, now: real, token: Digest, policy: Digest) {
    id in t && now < t[id].expiresAt && t[id].token == token && t[id].policy == policy
  }

  /** A named request is let in exactly if its session serves it, an unnamed one exactly below 1024 unexpired sessions. */
  lemma AdmitsExactly(t: Table, now: real, f: Flight)
    ensures var (live, verdict) := Admit(t, now, f);
            && (forall id :: id in live <==> id in t && now < t[id].expiresAt)
            && (forall id :: id in live ==> live[id] == t[id])
            && (verdict.Admitted? <==>
                match f.incoming
                case Some(id) => Serves(t, id, now, f.binding.token, f.binding.policy)
                case None => |set id | id in t && t[id].expiresAt > now| < 1024)
            && (verdict.Full? <==> f.incoming.None? && |set id | id in t && t[id].expiresAt > now| >= 1024)
  {
    var live := Admit(t, now, f).0;
    assert live.Keys == set id | id in t && t[id].expiresAt > now;
    assert |live.Keys| == |live|;
  }

  /** The second critical section; `header` is the session id on a successful response, if it carries one. */
  function Settle(t: Table, f: Flight, success: bool, header: Option<Id>): Table {
    var id := if header.Some? then header else f.incoming;
    if !success || id.None? then t
    else if f.deleting then t - {id.value}
    else t[id.value := f.binding]
  }

  /** The authorizer's table, updated under its lock. */
  class SessionTable {
    var sessions: Table

    constructor ()
      ensures sessions == map[]
    {
      sessions := map[];
    }

    method AdmitRequest(now: real, f: Flight) returns (v: Verdict)
      modifies this
      ensures (sessions, v) == Admit(old(sessions), now, f)
      // Exactly the unexpired sessions stay, as they were bound.
      ensures forall id :: id in sessions <==> id in old(sessions) && old(sessions)[id].expiresAt > now
      ensures forall id :: id in sessions ==> sessions[id] == old(sessions)[id]
      ensures v.Admitted? <==>
        match f.incoming
        case Some(id) => Serves(old(sessions), id, now, f.binding.token, f.binding.policy)
        case None => |set id | id in old(sessions) && old(sessions)[id].expiresAt > now| < 1024
      ensures v.UnknownSession? <==> f.incoming.Some? && !Serves(old(sessions), f.incoming.value, now, f.binding.token, f.binding.policy)
      ensures v.Full? <==> f.incoming.None? && |set id | id in old(sessions) && old(sessions)[id].expiresAt > now| >= 1024
    {
      AdmitsExactly(sessions, now, f);
      sessions := map id | id in sessions && sessions[id].expiresAt > now :: sessions[id];
      if f.incoming.Some? {
        if f.incoming.value !in sessions || !Matches(sessions[f.incoming.value], f.binding) {
          return UnknownSession;
        }
      } else if |sessions| >= CAPACITY {
        return Full;
      }
      return Admitted;
    }

    method SettleRequest(f: Flight, success: bool, header: Option<Id>)
      modifies this
      ensures sessions == Settle(old(sessions), f, success, header)
      // The answered id is bound to this request's digests and expiry, or forgotten; every other session stays as it was.
      ensures success && f.deleting && header.Some? ==> header.value !in sessions
      ensures success && f.deleting && header.None? && f.incoming.Some? ==> f.incoming.value !in sessions
      ensures success && !f.deleting && header.Some? ==> header.value in sessions && sessions[header.value] == f.binding
      ensures success && !f.deleting && header.None? && f.incoming.Some? ==>
        f.incoming.value in sessions && sessions[f.incoming.value] == f.binding
      ensures forall id :: !success || (header != Some(id) && (header.Some? || f.incoming != Some(id))) ==>
        (id in sessions <==> id in old(sessions)) && (id in sessions ==> sessions[id] == old(sessions)[id])
    {
      if success {
        var id := if header.Some? then header else f.incoming;
        if id.Some? {
          if f.deleting {
            sessions := sessions - {id.value};
          } else {
            sessions := sessions[id.value := f.binding];
          }
        }
      }
    }
  }

  // ---------------------------------------------------------------------------------------
  // Concurrent requests
  // ---------------------------------------------------------------------------------------

  /** `bound` is history: the digests first stored under each id. */
  datatype State = State(table: Table, flights: map<RequestId, Flight>, issued: set<Id>, bound: map<Id, Binding>)

  const INITIAL := State(map[], map[], {}, map[])

  datatype Step =
    | Arrive(r: RequestId, now: real, flight: Flight)
    | Answer(r: RequestId, success: bool, header: Option<Id>)
    | Abandon(r: RequestId)

  /** The transport echoes the id a request came with and issues fresh ids to those that came without. */
  predicate Allowed(st: State, s: Step) {
    match s
    case Arrive(r, _, _) => r !in st.flights
    case Answer(r, _, header) =>
      && r in st.flights
      && (header.Some? ==> if st.flights[r].incoming.Some? then header == st.flights[r].incoming else header.value !in st.issued)
    case Abandon(r) => r in st.flights
  }

  function Take(st: State, s: Step): State
    requires Allowed(st, s)
  {
    match s
    case Arrive(r, now, f) =>
      var (table, verdict) := Admit(st.table, now, f);
      st.(table := table, flights := if verdict.Admitted? then st.flights[r := f] else st.flights)
    case Answer(r, success, header) =>
      var f := st.flights[r];
      var binds := success && header.Some? && f.incoming.None? && !f.deleting;
      st.(table := Settle(st.table, f, success, header),
          flights := st.flights - {r},
          issued := if header.Some? then st.issued + {header.value} else st.issued,
          bound := if binds then st.bound[header.value := f.binding] else st.bound)
    case Abandon(r) => st.(flights := st.flights - {r})
  }

  /** Every binding, stored or about to be stored again, carries the digests its id was first bound with. */
  ghost predicate BindingsOk(st: State) {
    && st.bound.Keys <= st.issued
    && (forall id :: id in st.table ==> id in st.bound && Matches(st.table[id], st.bound[id]))
    && (forall r :: r in st.flights && st.flights[r].incoming.Some? ==>
        st.flights[r].incoming.value in st.bound && Matches(st.flights[r].binding, st.bound[st.flights[r].incoming.value]))
  }

  /** Ids that a request in flight carries, and may put back into the table. */
  ghost function Carried(flights: map<RequestId, Flight>): set<Id> {
    set r | r in flights && flights[r].incoming.Some? :: flights[r].incoming.value
  }

  /** Requests in flight that may add an id of their own. */
  function Newcomers(flights: map<RequestId, Flight>): set<RequestId> {
    set r | r in flights && flights[r].incoming.None?
  }

  /** What the table can still grow to without another admission. */
  ghost function Potential(st: State): nat {
    |st.table.Keys + Carried(st.flights)| + |Newcomers(st.flights)|
  }

  ghost predicate Run(states: seq<State>, steps: seq<Step>) {
    && |states| == |steps| + 1
    && states[0] == INITIAL
    && forall i :: 0 <= i < |steps| ==> Allowed(states[i], steps[i]) && states[i + 1] == Take(states[i], steps[i])
  }

  /** Never more than `n` requests are in flight. */
  ghost predicate Within(states: seq<State>, n: nat) {
    forall i :: 0 <= i < |states| ==> |states[i].flights| <= n
  }

  lemma SubsetSize<T>(a: set<T>, b: set<T>)
    requires a <= b
    ensures |a| <= |b|
  {
    assert b == a + (b - a);
  }

  lemma UnionSize<T>(a: set<T>, b: set<T>)
    ensures |a + b| <= |a| + |b|
  {
    assert a + b == a + (b - a);
    SubsetSize(b - a, b);
  }

  /** One request more carries its id, or is a newcomer. */
  lemma OneMore(rest: map<RequestId, Flight>, r: RequestId, f: Flight)
    requires r !in rest
    ensures Carried(rest[r := f]) == Carried(rest) + (if f.incoming.Some? then {f.incoming.value} else {})
    ensures Newcomers(rest[r := f]) == Newcomers(rest) + (if f.incoming.Some? then {} else {r})
  {
    var all := rest[r := f];
    forall id ensures id in Carried(all) <==> id in Carried(rest) || f.incoming == Some(id) {
      if id in Carried(rest) {
        var q :| q in rest && rest[q].incoming.Some? && rest[q].incoming.value == id;
        assert q in all && all[q].incoming.value == id;
      }
      if f.incoming == Some(id) {
        assert r in all && all[r].incoming.value == id;
      }
    }
  }

  lemma {:induction false} CarriedSize(flights: map<RequestId, Flight>)
    ensures |Carried(flights)| + |Newcomers(flights)| <= |flights|
    decreases |flights|
  {
    if flights == map[] {
      assert Carried(flights) == {};
    } else {
      var r :| r in flights;
      var rest := flights - {r};
      assert |rest| == |flights| - 1 by {
        assert rest.Keys == flights.Keys - {r};
        assert |flights.Keys| == |flights| && |rest.Keys| == |rest|;
      }
      CarriedSize(rest);
      assert flights == rest[r := flights[r]];
      OneMore(rest, r, flights[r]);
      if flights[r].incoming.Some? {
        UnionSize(Carried(rest), {flights[r].incoming.value});
      }
    }
  }

  /** Expiry only shrinks, and a request that names its session carries an id that is stored already. */
  lemma NamedArrival(t: Table, live: Table, rest: map<RequestId, Flight>, r: RequestId, f: Flight)
    requires live.Keys <= t.Keys && r !in rest && f.incoming.Some? && f.incoming.value in live
    ensures |live.Keys + Carried(rest[r := f])| + |Newcomers(rest[r := f])| <= |t.Keys + Carried(rest)| + |Newcomers(rest)|
  {
    OneMore(rest, r, f);
    hide Carried, Newcomers;
    SubsetSize(live.Keys + Carried(rest[r := f]), t.Keys + Carried(rest));
  }

  /** With room for a newcomer at most 1023 sessions are left, and each request in flight may add one. */
  lemma FreshArrival(live: Table, flights: map<RequestId, Flight>, n: nat)
    requires |live| <= CAPACITY - 1 && |flights| <= n
    ensures |live.Keys + Carried(flights)| + |Newcomers(flights)| <= CAPACITY - 1 + n
  {
    CarriedSize(flights);
    hide Carried, Newcomers;
    assert |live.Keys| == |live|;
    UnionSize(live.Keys, Carried(flights));
  }

  lemma ArriveKeepsPotential(st: State, s: Step, n: nat)
    requires Allowed(st, s) && s.Arrive? && Potential(st) <= CAPACITY - 1 + n
    requires |Take(st, s).flights| <= n
    ensures Potential(Take(st, s)) <= CAPACITY - 1 + n
  {
    hide Carried, Newcomers;
    var st' := Take(st, s);
    var live := Retain(st.table, s.now);
    assert st'.table == live && live.Keys <= st.table.Keys;
    if st'.flights == st.flights {
      SubsetSize(live.Keys + Carried(st.flights), st.table.Keys + Carried(st.flights));
    } else if s.flight.incoming.Some? {
      NamedArrival(st.table, live, st.flights, s.r, s.flight);
    } else {
      FreshArrival(live, st'.flights, n);
    }
  }

  /** The id that only this answer can add. */
  function Own(st: State, s: Step): set<Id>
    requires Allowed(st, s) && (s.Answer? || s.Abandon?)
  {
    if s.Answer? && s.header.Some? && st.flights[s.r].incoming.None? then {s.header.value} else {}
  }

  lemma PutBack(flights: map<RequestId, Flight>, r: RequestId)
    requires r in flights
    ensures (flights - {r})[r := flights[r]] == flights && r !in flights - {r}
  {
  }

  /** An answer adds at most the id it brings, or the id its request came with. */
  lemma SettleAdds(t: Table, f: Flight, success: bool, header: Option<Id>)
    ensures Settle(t, f, success, header).Keys <= t.Keys +
              (if header.Some? then {header.value} else if f.incoming.Some? then {f.incoming.value} else {})
  {
  }

  lemma AnswerEffect(st: State, s: Step)
    requires Allowed(st, s) && (s.Answer? || s.Abandon?)
    ensures s.r in st.flights && Take(st, s).flights == st.flights - {s.r}
    ensures Take(st, s).table.Keys <= st.table.Keys + Own(st, s) +
              (if st.flights[s.r].incoming.Some? then {st.flights[s.r].incoming.value} else {})
    ensures |Own(st, s)| <= if st.flights[s.r].incoming.Some? then 0 else 1
    ensures Take(st, s).flights[s.r := st.flights[s.r]] == st.flights && s.r !in Take(st, s).flights
  {
    hide Settle;
    PutBack(st.flights, s.r);
    if s.Answer? {
      SettleAdds(st.table, st.flights[s.r], s.success, s.header);
    }
  }

  /** A request that leaves takes its carried id or its place as a newcomer with it, which pays for what it adds. */
  lemma LeavingPays(t: set<Id>, t': set<Id>, own: set<Id>, rest: map<RequestId, Flight>, r: RequestId, f: Flight)
    requires r !in rest && |own| <= (if f.incoming.Some? then 0 else 1)
    requires t' <= t + own + (if f.incoming.Some? then {f.incoming.value} else {})
    ensures |t' + Carried(rest)| + |Newcomers(rest)| <= |t + Carried(rest[r := f])| + |Newcomers(rest[r := f])|
  {
    OneMore(rest, r, f);
    var carried, carried' := Carried(rest[r := f]), Carried(rest);
    var newcomers, newcomers' := Newcomers(rest[r := f]), Newcomers(rest);
    assert r !in newcomers';
    hide Carried, Newcomers;
    SubsetSize(t' + carried', (t + carried) + own);
    UnionSize(t + carried, own);
  }

  lemma AnswerKeepsPotential(st: State, s: Step)
    requires Allowed(st, s) && (s.Answer? || s.Abandon?)
    ensures Potential(Take(st, s)) <= Potential(st)
  {
    AnswerEffect(st, s);
    var st' := Take(st, s);
    hide *;
    PotentialMeans(st);
    PotentialMeans(st');
    LeavingPays(st.table.Keys, st'.table.Keys, Own(st, s), st'.flights, s.r, st.flights[s.r]);
  }

  lemma PotentialMeans(st: State)
    ensures Potential(st) == |st.table.Keys + Carried(st.flights)| + |Newcomers(st.flights)|
  {
  }

  lemma {:induction false} PotentialIsBounded(states: seq<State>, steps: seq<Step>, n: nat, i: nat)
    requires Run(states, steps) && i < |states|
    requires Within(states, n)
    ensures Potential(states[i]) <= CAPACITY - 1 + n
  {
    if i == 0 {
      assert Carried(states[0].flights) == {} && Newcomers(states[0].flights) == {};
    } else {
      PotentialIsBounded(states, steps, n, i - 1);
      assert |states[i].flights| <= n;
      if steps[i - 1].Arrive? {
        ArriveKeepsPotential(states[i - 1], steps[i - 1], n);
      } else {
        AnswerKeepsPotential(states[i - 1], steps[i - 1]);
      }
    }
  }

  /** With at most `n` requests in flight the table never holds more than 1023 + n sessions, whatever is deleted or expires meanwhile. */
  lemma TableIsBounded(states: seq<State>, steps: seq<Step>, n: nat, i: nat)
    requires Run(states, steps) && i < |states|
    requires Within(states, n)
    ensures |states[i].table| <= CAPACITY - 1 + n
  {
    PotentialIsBounded(states, steps, n, i);
    SubsetSize(states[i].table.Keys, states[i].table.Keys + Carried(states[i].flights));
    assert |states[i].table.Keys| == |states[i].table|;
  }

  lemma StepKeepsBindings(st: State, s: Step)
    requires BindingsOk(st) && Allowed(st, s)
    ensures BindingsOk(Take(st, s))
    ensures forall id :: id in st.bound ==> id in Take(st, s).bound && Take(st, s).bound[id] == st.bound[id]
  {
  }

  lemma {:induction false} BoundForever(states: seq<State>, steps: seq<Step>, i: nat, j: nat)
    requires Run(states, steps) && i <= j < |states|
    ensures BindingsOk(states[i]) && BindingsOk(states[j])
    ensures forall id :: id in states[i].bound ==> id in states[j].bound && states[j].bound[id] == states[i].bound[id]
  {
    if i < j {
      BoundForever(states, steps, i, j - 1);
      StepKeepsBindings(states[j - 1], steps[j - 1]);
    } else if i > 0 {
      BoundForever(states, steps, i - 1, i - 1);
      StepKeepsBindings(states[i - 1], steps[i - 1]);
    }
  }

  /** All bindings ever stored under one id carry the same token and policy, through any deletion, expiry and re-insertion. */
  lemma SessionsNeverChangeHands(states: seq<State>, steps: seq<Step>, i: nat, j: nat, id: Id)
    requires Run(states, steps) && i <= j < |states|
    requires id in states[i].table && id in states[j].table
    ensures Matches(states[i].table[id], states[j].table[id])
  {
    BoundForever(states, steps, i, j);
  }

  // ---------------------------------------------------------------------------------------
  // Lifetimes
  // ---------------------------------------------------------------------------------------

  /** This step successfully answers a request under `id`: the id in the response, or else the one the request named. */
  predicate Concerns(st: State, s: Step, id: Id) {
    s.Answer? && s.success && s.r in st.flights && (s.header == Some(id) || (s.header.None? && st.flights[s.r].incoming == Some(id)))
  }

  predicate Binds(st: State, s: Step, id: Id, b: Binding) {
    Concerns(st, s, id) && !st.flights[s.r].deleting && st.flights[s.r].binding == b
  }

  /** This step sweeps the table at a time when `b` is over. */
  predicate Outlives(s: Step, b: Binding) {
    s.Arrive? && b.expiresAt <= s.now
  }

  /** Step `i` bound `b` under `id`, and up to state `j` no answer rebound or deleted the id and no sweep found `b` over. */
  ghost predicate BoundLast(states: seq<State>, steps: seq<Step>, i: nat, j: nat, id: Id, b: Binding) {
    && i < j <= |steps| && j < |states| && Binds(states[i], steps[i], id, b)
    && forall k :: i < k < j ==> !Concerns(states[k], steps[k], id) && !Outlives(steps[k], b)
  }

  lemma StepTable(st: State, s: Step, id: Id, b: Binding)
    requires Allowed(st, s)
    ensures id in Take(st, s).table && Take(st, s).table[id] == b <==>
              || Binds(st, s, id, b)
              || (id in st.table && st.table[id] == b && !Concerns(st, s, id) && !Outlives(s, b))
  {
  }

  /** In every reachable state the table holds exactly the bindings that were bound last under their ids and have not run out. */
  lemma {:induction false} TableIsHistory(states: seq<State>, steps: seq<Step>, j: nat, id: Id, b: Binding)
    requires Run(states, steps) && j < |states|
    ensures id in states[j].table && states[j].table[id] == b <==> exists i: nat :: BoundLast(states, steps, i, j, id, b)
  {
    hide Take, Allowed, Binds, Concerns;
    if j > 0 {
      TableIsHistory(states, steps, j - 1, id, b);
      StepTable(states[j - 1], steps[j - 1], id, b);
      if Binds(states[j - 1], steps[j - 1], id, b) {
        assert BoundLast(states, steps, j - 1, j, id, b);
      } else if id in states[j - 1].table && states[j - 1].table[id] == b {
        var i: nat :| BoundLast(states, steps, i, j - 1, id, b);
        if !Concerns(states[j - 1], steps[j - 1], id) && !Outlives(steps[j - 1], b) {
          assert BoundLast(states, steps, i, j, id, b);
        }
      }
      if i: nat :| BoundLast(states, steps, i, j, id, b) {
        if i < j - 1 {
          assert BoundLast(states, steps, i, j - 1, id, b);
        }
      }
    }
  }

  /**
   On every run, a request that names a session is let in if and only if some earlier answer bound that id to the
   request's digests, the binding is not over yet and was not over at any arrival since, and no answer since then
   deleted or rebound the id.
   */
  lemma AdmittedWithinLifetime(states: seq<State>, steps: seq<Step>, j: nat)
    requires Run(states, steps) && j < |steps| && steps[j].Arrive? && steps[j].flight.incoming.Some?
    ensures var f := steps[j].flight;
            steps[j].r in states[j + 1].flights <==>
              exists i: nat, b: Binding ::
                BoundLast(states, steps, i, j, f.incoming.value, b)
                && steps[j].now < b.expiresAt && b.token == f.binding.token && b.policy == f.binding.policy
  {
    var f, now, t := steps[j].flight, steps[j].now, states[j].table;
    var id := f.incoming.value;
    AdmitsExactly(t, now, f);
    assert steps[j].r in states[j + 1].flights <==> Serves(t, id, now, f.binding.token, f.binding.policy);
    hide Take, Allowed, BoundLast;
    if Serves(t, id, now, f.binding.token, f.binding.policy) {
      TableIsHistory(states, steps, j, id, t[id]);
      var i: nat :| BoundLast(states, steps, i, j, id, t[id]);
    }
    if i: nat, b: Binding :| BoundLast(states, steps, i, j, id, b) && now < b.expiresAt && b.token == f.binding.token && b.policy == f.binding.policy {
      TableIsHistory(states, steps, j, id, b);
    }
  }

  // ---------------------------------------------------------------------------------------
  // The bound is exact: the capacity is checked at admission, so concurrent newcomers overshoot it.
  // ---------------------------------------------------------------------------------------

  const PLAIN := Binding(0, 0, 1.0)
  const NEWCOMER := Flight(None, PLAIN, false)

  /** `k` live sessions. */
  function Rows(k: nat): (t: Table)
    ensures forall id: Id :: id in t <==> id < k
    ensures forall id: Id :: id in t ==> t[id] == PLAIN
    ensures |t| == k
  {
    if k == 0 then map[] else Rows(k - 1)[k - 1 := PLAIN]
  }

  /** Newcomers admitted and not answered yet. */
  function Waiting(from: nat, to: nat): (w: map<RequestId, Flight>)
    requires from <= to
    ensures forall r: RequestId :: r in w <==> from <= r < to
    ensures forall r: RequestId :: r in w ==> w[r] == NEWCOMER
    ensures |w| == to - from
  {
    if from == to then map[] else Waiting(from, to - 1)[to - 1 := NEWCOMER]
  }

  /** A run that ends in `st`, with at most `n` requests in flight throughout. */
  ghost predicate Reaches(states: seq<State>, steps: seq<Step>, n: nat, st: State) {
    Run(states, steps) && Within(states, n) && states[|states| - 1] == st
  }

  lemma Extend(states: seq<State>, steps: seq<Step>, n: nat, st: State, s: Step)
    returns (states': seq<State>, steps': seq<Step>)
    requires Reaches(states, steps, n, st) && Allowed(st, s) && |Take(st, s).flights| <= n
    ensures Reaches(states', steps', n, Take(st, s))
  {
    hide Take, Allowed;
    states', steps' := states + [Take(st, s)], steps + [s];
    forall i | 0 <= i < |steps'| ensures Allowed(states'[i], steps'[i]) && states'[i + 1] == Take(states'[i], steps'[i]) {
      assert i < |steps| ==> states'[i] == states[i] && states'[i + 1] == states[i + 1] && steps'[i] == steps[i];
    }
    forall i | 0 <= i < |states'| ensures |states'[i].flights| <= n {
      assert i < |states| ==> states'[i] == states[i];
    }
  }

  /** `k` sessions, with `waiting` newcomers admitted and not answered yet. */
  function Stage(k: nat, from: nat, to: nat): State
    requires from <= to
  {
    State(Rows(k), Waiting(from, to), Rows(k).Keys, Rows(k))
  }

  lemma AdmitStage(k: nat, from: nat, to: nat)
    requires k < CAPACITY && from <= to
    ensures Allowed(Stage(k, from, to), Arrive(to, 0.0, NEWCOMER))
    ensures Take(Stage(k, from, to), Arrive(to, 0.0, NEWCOMER)) == Stage(k, from, to + 1)
  {
    assert Retain(Rows(k), 0.0) == Rows(k);
    assert Waiting(from, to)[to := NEWCOMER] == Waiting(from, to + 1);
  }

  lemma AnswerStage(k: nat, from: nat, to: nat)
    requires from < to
    ensures Allowed(Stage(k, from, to), Answer(from, true, Some(k)))
    ensures Take(Stage(k, from, to), Answer(from, true, Some(k))) == Stage(k + 1, from + 1, to)
  {
    assert Rows(k)[k := PLAIN] == Rows(k + 1);
    assert Rows(k).Keys + {k} == Rows(k + 1).Keys;
    assert Waiting(from, to) - {from} == Waiting(from + 1, to);
  }

  lemma InitialIsReached(n: nat)
    ensures Reaches([INITIAL], [], n, INITIAL) && Stage(0, 0, 0) == INITIAL
  {
  }

  lemma {:induction false} Fill(k: nat, n: nat) returns (states: seq<State>, steps: seq<Step>)
    requires k < CAPACITY && n >= 1
    ensures Reaches(states, steps, n, Stage(k, k, k))
  {
    hide Reaches, Allowed, Take, Rows, Waiting;
    if k == 0 {
      states, steps := [INITIAL], [];
      InitialIsReached(n);
    } else {
      states, steps := Fill(k - 1, n);
      AdmitStage(k - 1, k - 1, k - 1);
      states, steps := Extend(states, steps, n, Stage(k - 1, k - 1, k - 1), Arrive(k - 1, 0.0, NEWCOMER));
      AnswerStage(k - 1, k - 1, k);
      states, steps := Extend(states, steps, n, Stage(k - 1, k - 1, k), Answer(k - 1, true, Some(k - 1)));
    }
  }

  lemma {:induction false} Crowd(k: nat, m: nat, n: nat) returns (states: seq<State>, steps: seq<Step>)
    requires k < CAPACITY && m <= n && n >= 1
    ensures Reaches(states, steps, n, Stage(k, k, k + m))
  {
    hide Reaches, Allowed, Take;
    if m == 0 {
      states, steps := Fill(k, n);
    } else {
      states, steps := Crowd(k, m - 1, n);
      AdmitStage(k, k, k + m - 1);
      states, steps := Extend(states, steps, n, Stage(k, k, k + m - 1), Arrive(k + m - 1, 0.0, NEWCOMER));
    }
  }

  lemma {:induction false} Drain(k: nat, m: nat, n: nat) returns (states: seq<State>, steps: seq<Step>)
    requires k < CAPACITY && m <= n && n >= 1
    ensures Reaches(states, steps, n, Stage(k + m, k + m, k + n))
  {
    hide Reaches, Allowed, Take;
    if m == 0 {
      states, steps := Crowd(k, n, n);
    } else {
      states, steps := Drain(k, m - 1, n);
      AnswerStage(k + m - 1, k + m - 1, k + n);
      states, steps := Extend(states, steps, n, Stage(k + m - 1, k + m - 1, k + n), Answer(k + m - 1, true, Some(k + m - 1)));
    }
  }

  /** For every n there is a run with at most n requests in flight whose table reaches 1023 + n sessions. */
  lemma BoundIsReached(n: nat)
    requires n >= 1
    ensures exists states: seq<State>, steps: seq<Step> ::
              Run(states, steps) && Within(states, n) && |states[|states| - 1].table| == CAPACITY - 1 + n
  {
    var k := CAPACITY - 1;
    var states, steps := Drain(k, n, n);
    assert Run(states, steps) && Within(states, n) && |states[|states| - 1].table| == k + n;
  }
}
