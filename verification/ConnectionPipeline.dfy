/**
 One daemon connection (`src/daemon/server.rs`): requests are answered one at a time while a connection that
 owns a scope keeps reading ahead, so that a disconnect is noticed during a long dispatch.
 */
module ConnectionPipeline {
  import opened Wrappers

  const MAX_PENDING := 16

  /** A received line; `attaches` marks an `ensure_vault` request. */
  datatype Line = Blank | Malformed(text: nat) | Request(id: nat, attaches: bool)

  /** What a dispatch produced, and whether the connection holds a scope and shuts the daemon down afterwards. */
  datatype Outcome = Outcome(payload: nat, attached: bool, shutdown: bool)

  datatype Reply = ParseError(text: nat) | Answer(id: nat, payload: nat)

  /** One dispatch: how many reads completed before it did, and its outcome unless the connection was dropped first. */
  datatype Turn = Turn(arrivals: nat, outcome: Option<Outcome>)

  /**
   Where the socket fails outside a dispatch: reading the next line after so many lines were processed, or writing after
   so many replies. Being dropped while idle is a failed read.
   */
  datatype Faults = Faults(incoming: set<nat>, outgoing: set<nat>)

  const NO_FAULTS := Faults({}, {})

  datatype Ending = EndOfStream | TooManyPending | ShutDown | Dropped

  datatype Report = Report(processed: seq<Line>, current: Option<Line>, pending: seq<Line>, unread: seq<Line>,
                           replies: seq<Reply>, ending: Ending)

  function AsSeq<T>(o: Option<T>): seq<T> {
    if o.Some? then [o.value] else []
  }

  /** The reference: every line in input order, one reply each unless blank, the n-th request getting the n-th outcome. */
  function InOrder(lines: seq<Line>, turns: seq<Turn>): seq<Reply> {
    if lines == [] then []
    else
      match lines[0]
      case Blank => InOrder(lines[1..], turns)
      case Malformed(text) => [ParseError(text)] + InOrder(lines[1..], turns)
      case Request(id, _) =>
        if turns == [] || turns[0].outcome.None? then []
        else [Answer(id, turns[0].outcome.value.payload)] + InOrder(lines[1..], turns[1..])
  }

  /** The number of requests among these lines. */
  function Requests(lines: seq<Line>): nat {
    if lines == [] then 0 else Count(lines[0]) + Requests(lines[1..])
  }

  function Count(line: Line): nat {
    if line.Request? then 1 else 0
  }

  lemma {:induction false} RequestsExtend(done: seq<Line>, line: Line)
    ensures Requests(done + [line]) == Requests(done) + Count(line)
  {
    if done == [] {
      assert [] + [line] == [line];
    } else {
      assert (done + [line])[1..] == done[1..] + [line];
      RequestsExtend(done[1..], line);
    }
  }

  /** The outcomes consumed so far were all there. */
  predicate Answered(turns: seq<Turn>, n: nat) {
    n <= |turns| && forall i :: 0 <= i < n ==> turns[i].outcome.Some?
  }

  /** What one more processed line adds to the replies, when `n` requests came before it. */
  function ReplyTo(line: Line, turns: seq<Turn>, n: nat): seq<Reply>
    requires Answered(turns, n + Count(line))
  {
    match line
    case Blank => []
    case Malformed(text) => [ParseError(text)]
    case Request(id, _) => [Answer(id, turns[n].outcome.value.payload)]
  }

  lemma ReplyShifts(line: Line, turns: seq<Turn>, n: nat)
    requires n > 0 && Answered(turns, n + Count(line))
    ensures Answered(turns[1..], n - 1 + Count(line))
    ensures ReplyTo(line, turns[1..], n - 1) == ReplyTo(line, turns, n)
  {
  }

  lemma InOrderOfOne(line: Line, turns: seq<Turn>)
    requires Answered(turns, Count(line))
    ensures InOrder([line], turns) == ReplyTo(line, turns, 0)
  {
    assert [line][1..] == [];
  }

  /** The reply to a first line, before the replies to the others. */
  lemma InOrderHead(line: Line, rest: seq<Line>, turns: seq<Turn>)
    requires Answered(turns, Count(line))
    ensures InOrder([line] + rest, turns) == ReplyTo(line, turns, 0) + InOrder(rest, if line.Request? then turns[1..] else turns)
  {
    assert ([line] + rest)[1..] == rest;
  }

  lemma RepliesRegroup(a: seq<Reply>, b: seq<Reply>, c: seq<Reply>)
    ensures a + (b + c) == (a + b) + c
  {
  }

  /** Processing one more line adds exactly its reply to the reference. */
  lemma {:induction false} InOrderExtends(done: seq<Line>, line: Line, turns: seq<Turn>)
    requires Answered(turns, Requests(done) + Count(line))
    ensures Requests(done + [line]) == Requests(done) + Count(line)
    ensures InOrder(done + [line], turns) == InOrder(done, turns) + ReplyTo(line, turns, Requests(done))
    decreases |done|, 1
  {
    RequestsExtend(done, line);
    if done == [] {
      InOrderOfOne(line, turns);
      assert [] + [line] == [line];
    } else {
      hide InOrder, ReplyTo;
      InOrderExtendsAfter(done[0], done[1..], line, turns);
      assert done == [done[0]] + done[1..] && done + [line] == [done[0]] + (done[1..] + [line]);
    }
  }

  lemma {:induction false} InOrderExtendsAfter(first: Line, rest: seq<Line>, line: Line, turns: seq<Turn>)
    requires Answered(turns, Count(first) + Requests(rest) + Count(line))
    ensures InOrder([first] + (rest + [line]), turns)
         == InOrder([first] + rest, turns) + ReplyTo(line, turns, Count(first) + Requests(rest))
    decreases |rest| + 1, 0
  {
    var turns' := if first.Request? then turns[1..] else turns;
    InOrderHead(first, rest, turns);
    InOrderHead(first, rest + [line], turns);
    if first.Request? {
      ReplyShifts(line, turns, 1 + Requests(rest));
    }
    hide InOrder, ReplyTo;
    InOrderExtends(rest, line, turns');
    hide Requests;
    RepliesRegroup(ReplyTo(first, turns, 0), InOrder(rest, turns'), ReplyTo(line, turns', Requests(rest)));
  }

  /** Fewer lines give a prefix of the replies. */
  lemma {:induction false} InOrderIsMonotone(a: seq<Line>, b: seq<Line>, turns: seq<Turn>)
    requires Answered(turns, Requests(a + b))
    ensures InOrder(a, turns) <= InOrder(a + b, turns)
  {
    if b == [] {
      assert a + b == a;
    } else {
      var front, last := b[..|b| - 1], b[|b| - 1];
      assert a + b == (a + front) + [last];
      RequestsExtend(a + front, last);
      InOrderExtends(a + front, last, turns);
      InOrderIsMonotone(a, front, turns);
    }
  }

  function NonBlank(lines: seq<Line>): seq<Line> {
    if lines == [] then []
    else (if lines[0].Blank? then [] else [lines[0]]) + NonBlank(lines[1..])
  }

  predicate Answers(r: Reply, line: Line) {
    match line
    case Blank => false
    case Malformed(text) => r == ParseError(text)
    case Request(id, _) => r.Answer? && r.id == id
  }

  /** The reference replies exactly once to each non-blank line, in order. */
  lemma {:induction false} OneReplyPerLine(lines: seq<Line>, turns: seq<Turn>, n: nat)
    requires n == Requests(lines) && Answered(turns, n)
    ensures |InOrder(lines, turns)| == |NonBlank(lines)|
    ensures forall i :: 0 <= i < |NonBlank(lines)| ==> Answers(InOrder(lines, turns)[i], NonBlank(lines)[i])
  {
    if lines != [] {
      OneReplyPerLine(lines[1..], if lines[0].Request? then turns[1..] else turns, Requests(lines[1..]));
    }
  }

  lemma NonBlankHead(lines: seq<Line>, i: nat)
    requires lines != [] && i < |NonBlank(lines)|
    ensures lines[0].Blank? ==> NonBlank(lines) == NonBlank(lines[1..])
    ensures !lines[0].Blank? && i == 0 ==> NonBlank(lines)[0] == lines[0] && Requests(NonBlank(lines)[..0]) == 0
    ensures !lines[0].Blank? && i > 0 ==>
      && i - 1 < |NonBlank(lines[1..])| && NonBlank(lines)[i] == NonBlank(lines[1..])[i - 1]
      && Requests(NonBlank(lines)[..i]) == Count(lines[0]) + Requests(NonBlank(lines[1..])[..i - 1])
  {
    var nonBlank, rest := NonBlank(lines), NonBlank(lines[1..]);
    hide NonBlank, Count;
    if !lines[0].Blank? && i > 0 {
      assert nonBlank[..i] == [lines[0]] + rest[..i - 1];
      RequestsHead(lines[0], rest[..i - 1]);
    }
  }

  lemma RequestsHead(line: Line, rest: seq<Line>)
    ensures Requests([line] + rest) == Count(line) + Requests(rest)
  {
    assert ([line] + rest)[1..] == rest;
  }

  /** The reply to a request carries the outcome of that very request: the one with as many requests before it. */
  lemma {:induction false} ReplyCarriesItsOutcome(lines: seq<Line>, turns: seq<Turn>, i: nat)
    requires Answered(turns, Requests(lines)) && i < |NonBlank(lines)| && NonBlank(lines)[i].Request?
    ensures var k := Requests(NonBlank(lines)[..i]);
            && k < Requests(lines) && i < |InOrder(lines, turns)|
            && InOrder(lines, turns)[i] == Answer(NonBlank(lines)[i].id, turns[k].outcome.value.payload)
  {
    assert lines != [];
    var first, rest := lines[0], lines[1..];
    assert lines == [first] + rest;
    NonBlankHead(lines, i);
    RequestsHead(first, rest);
    InOrderHead(first, rest, turns);
    hide InOrder, Requests, NonBlank;
    if first.Blank? {
      ReplyCarriesItsOutcome(rest, turns, i);
    } else if i > 0 {
      ReplyCarriesItsOutcome(rest, if first.Request? then turns[1..] else turns, i - 1);
    }
  }

  /** The reads that complete while a dispatch runs; `stop` says that they ended the connection. */
  method ReadAhead(pending: seq<Line>, unread: seq<Line>, arrivals: nat) returns (ahead: seq<Line>, rest: seq<Line>, stop: Option<Ending>)
    requires |pending| <= MAX_PENDING
    ensures ahead + rest == pending + unread && |ahead| + |rest| == |pending| + |unread|
    ensures pending <= ahead && |ahead| <= MAX_PENDING
    ensures stop.None? <==> arrivals <= |unread| && |pending| + arrivals <= MAX_PENDING
    ensures stop.None? ==> |ahead| == |pending| + arrivals
    ensures stop == Some(TooManyPending) <==> MAX_PENDING < |pending| + arrivals && MAX_PENDING < |pending| + |unread|
    ensures stop == Some(TooManyPending) ==> rest != [] && |ahead| == MAX_PENDING
    ensures stop.Some? && !stop.value.TooManyPending? ==> stop.value.EndOfStream? && rest == [] && |unread| < arrivals
  {
    ahead, rest, stop := pending, unread, None;
    var arrived := 0;
    while arrived < arrivals
      invariant 0 <= arrived <= arrivals
      invariant ahead + rest == pending + unread
      invariant pending <= ahead && |ahead| == |pending| + arrived <= MAX_PENDING
    {
      if rest == [] {
        stop := Some(EndOfStream);
        return;
      }
      if |ahead| >= MAX_PENDING {
        stop := Some(TooManyPending);
        return;
      }
      assert ahead + rest == (ahead + [rest[0]]) + rest[1..];
      ahead, rest := ahead + [rest[0]], rest[1..];
      arrived := arrived + 1;
    }
  }

  /** One dispatch. It is observed only on a connection that owns a scope or is about to. */
  method Dispatch(line: Line, pending: seq<Line>, unread: seq<Line>, turns: seq<Turn>, attached: bool)
    returns (ahead: seq<Line>, rest: seq<Line>, owner: bool, stop: Option<Ending>)
    requires line.Request? && |pending| <= MAX_PENDING
    ensures ahead + rest == pending + unread && |ahead| <= MAX_PENDING
    ensures stop.None? ==> turns != [] && turns[0].outcome.Some? && owner == (attached || turns[0].outcome.value.attached)
    ensures stop.None? ==>
      CutOff(line, pending + unread, turns, |pending|, attached) ==
        (!turns[0].outcome.value.shutdown && Overflows(ahead + rest, turns[1..], |ahead|, owner))
    ensures stop.Some? ==> (stop.value.TooManyPending? <==> CutOff(line, pending + unread, turns, |pending|, attached))
    ensures turns == [] ==> stop == Some(Dropped)
    ensures turns != [] ==>
      var wanted := |pending| + if attached || line.attaches then turns[0].arrivals else 0;
      stop == if wanted > MAX_PENDING && |pending| + |unread| > MAX_PENDING then Some(TooManyPending)
              else if wanted > |pending| + |unread| then Some(EndOfStream)
              else if turns[0].outcome.None? then Some(Dropped)
              else None
    ensures stop.None? ==> |ahead| == |pending| + if attached || line.attaches then turns[0].arrivals else 0
    ensures stop.Some? ==>
      match stop.value
      case EndOfStream => rest == []
      case TooManyPending => rest != [] && |ahead| == MAX_PENDING
      case ShutDown => false
      case Dropped => turns == [] || turns[0].outcome.None?
  {
    hide Overflows;
    ahead, rest, owner, stop := pending, unread, attached, None;
    if turns == [] {
      stop := Some(Dropped);
      return;
    }
    if attached || line.attaches {
      ahead, rest, stop := ReadAhead(pending, unread, turns[0].arrivals);
      if stop.Some? {
        return;
      }
    }
    if turns[0].outcome.None? {
      stop := Some(Dropped);
    } else {
      owner := attached || turns[0].outcome.value.attached;
    }
  }

  /** Processed, then being dispatched, then read ahead, then not read yet. */
  function Whole(processed: seq<Line>, current: Option<Line>, pending: seq<Line>, unread: seq<Line>): seq<Line> {
    processed + AsSeq(current) + pending + unread
  }

  /** No line is lost, reordered or answered twice. */
  ghost predicate Conserved(r: Report, input: seq<Line>) {
    Whole(r.processed, r.current, r.pending, r.unread) == input && |r.pending| <= MAX_PENDING
  }

  ghost predicate RepliesInOrder(r: Report, turns: seq<Turn>) {
    && Answered(turns, Requests(r.processed))
    && r.replies == InOrder(r.processed, turns)
  }

  /** Each way a connection can end, and what it leaves behind. */
  ghost predicate EndsProperly(r: Report, input: seq<Line>, turns: seq<Turn>, faults: Faults) {
    var n := Requests(r.processed);
    match r.ending
    case EndOfStream => r.unread == [] && (r.current.None? ==> r.processed == input)
    case TooManyPending => |r.pending| == MAX_PENDING && r.unread != [] && r.current.Some? && r.current.value.Request?
    case ShutDown => 0 < n <= |turns| && turns[n - 1].outcome.Some? && turns[n - 1].outcome.value.shutdown && r.current.None?
    case Dropped =>
      if r.current.None? then r.pending == [] && |r.processed| in faults.incoming
      else || (r.current.value.Request? && (n >= |turns| || turns[n].outcome.None?))
           || (!r.current.value.Blank? && |r.replies| in faults.outgoing)
  }

  // ---------------------------------------------------------------------------------------
  // Where a connection ends
  // ---------------------------------------------------------------------------------------

  /** The connection owns a scope once one of its first `n` outcomes attached it. */
  ghost predicate Owner(turns: seq<Turn>, n: nat) {
    exists i :: 0 <= i < n && i < |turns| && turns[i].outcome.Some? && turns[i].outcome.value.attached
  }

  /** The reads that complete while line `k` is dispatched; without a scope, held or asked for, nobody is reading. */
  ghost function Watched(input: seq<Line>, turns: seq<Turn>, k: nat): nat
    requires k < |input|
  {
    var n := Requests(input[..k]);
    if input[k].Request? && n < |turns| && (input[k].attaches || Owner(turns, n)) then turns[n].arrivals else 0
  }

  /** The lines read ahead when line `k` is about to be taken, if every line before it was processed. */
  ghost function Queue(input: seq<Line>, turns: seq<Turn>, k: nat): nat
    requires k <= |input|
  {
    if k == 0 then 0 else Left(Queue(input, turns, k - 1)) + Watched(input, turns, k - 1)
  }

  function Left(queue: nat): nat {
    if queue == 0 then 0 else queue - 1
  }

  /** During the dispatch of line `k` a seventeenth line is read ahead. */
  ghost predicate Crowded(input: seq<Line>, turns: seq<Turn>, k: nat)
    requires k < |input|
  {
    Left(Queue(input, turns, k)) + Watched(input, turns, k) > MAX_PENDING && |input| - k - 1 > MAX_PENDING
  }

  /** During the dispatch of line `k` the client is seen to have closed its side. */
  ghost predicate HangsUp(input: seq<Line>, turns: seq<Turn>, k: nat)
    requires k < |input|
  {
    Left(Queue(input, turns, k)) + Watched(input, turns, k) > |input| - k - 1
  }

  ghost predicate Unreadable(input: seq<Line>, turns: seq<Turn>, faults: Faults, k: nat)
    requires k <= |input|
  {
    Queue(input, turns, k) == 0 && k in faults.incoming
  }

  /** Line `k` is answered as far as anyone but the reads during its dispatch can tell. */
  ghost predicate Answerable(input: seq<Line>, turns: seq<Turn>, faults: Faults, k: nat)
    requires k < |input|
  {
    && (input[k].Request? ==> Requests(input[..k]) < |turns| && turns[Requests(input[..k])].outcome.Some?)
    && (!input[k].Blank? ==> |InOrder(input[..k], turns)| !in faults.outgoing)
  }

  ghost predicate Passes(input: seq<Line>, turns: seq<Turn>, faults: Faults, k: nat)
    requires k < |input|
  {
    && !Unreadable(input, turns, faults, k) && Answerable(input, turns, faults, k)
    && (input[k].Request? ==> !Crowded(input, turns, k) && !HangsUp(input, turns, k))
  }

  /** Line `k` is a request whose outcome stops the daemon. */
  ghost predicate Shuts(input: seq<Line>, turns: seq<Turn>, k: nat)
    requires k < |input|
  {
    var n := Requests(input[..k]);
    input[k].Request? && n < |turns| && turns[n].outcome.Some? && turns[n].outcome.value.shutdown
  }

  /** The first `p` lines are processed, and none before the last of them stops the daemon. */
  ghost predicate Reached(input: seq<Line>, turns: seq<Turn>, faults: Faults, p: nat)
    requires p <= |input|
  {
    forall k :: 0 <= k < p ==> Passes(input, turns, faults, k) && (Shuts(input, turns, k) ==> k == p - 1)
  }

  /** How a connection ends that processed exactly `p` lines, and the line that was being dispatched. */
  ghost predicate StopsAt(input: seq<Line>, turns: seq<Turn>, faults: Faults, p: nat, current: Option<Line>, ending: Ending)
    requires p <= |input|
  {
    if p > 0 && Shuts(input, turns, p - 1) then ending.ShutDown? && current.None?
    else if Unreadable(input, turns, faults, p) then ending.Dropped? && current.None?
    else if p == |input| then ending.EndOfStream? && current.None?
    else
      && current == Some(input[p])
      && if !input[p].Request? || Requests(input[..p]) >= |turns| then ending.Dropped? && !Answerable(input, turns, faults, p)
         else if Crowded(input, turns, p) then ending.TooManyPending?
         else if HangsUp(input, turns, p) then ending.EndOfStream?
         else ending.Dropped? && !Answerable(input, turns, faults, p)
  }

  /** The lines processed, the line being dispatched and the ending are the ones that the input, the turns and the faults determine. */
  ghost predicate EndsExactly(r: Report, input: seq<Line>, turns: seq<Turn>, faults: Faults) {
    && |r.processed| <= |input| && r.processed == input[..|r.processed|]
    && Reached(input, turns, faults, |r.processed|)
    && StopsAt(input, turns, faults, |r.processed|, r.current, r.ending)
  }

  lemma NothingPassesAnEnd(input: seq<Line>, turns: seq<Turn>, faults: Faults, p: nat, c: Option<Line>, e: Ending, q: nat)
    requires p < q <= |input| && StopsAt(input, turns, faults, p, c, e)
    ensures !Reached(input, turns, faults, q)
  {
    assert !Passes(input, turns, faults, p) || (p > 0 && Shuts(input, turns, p - 1));
  }

  /** The input, the turns and the faults leave a connection only one way to end. */
  lemma EndIsDetermined(input: seq<Line>, turns: seq<Turn>, faults: Faults, r1: Report, r2: Report)
    requires EndsExactly(r1, input, turns, faults) && EndsExactly(r2, input, turns, faults)
    ensures r1.processed == r2.processed && r1.current == r2.current && r1.ending == r2.ending
  {
    var p, q := |r1.processed|, |r2.processed|;
    if p < q {
      NothingPassesAnEnd(input, turns, faults, p, r1.current, r1.ending, q);
    } else if q < p {
      NothingPassesAnEnd(input, turns, faults, q, r2.current, r2.ending, p);
    }
  }

  /**
   The reference for being cut off: with `ahead` of `lines` read already, a connection that owns a scope, or is about to,
   has more than sixteen lines pending during some dispatch before anything else ends it.
   */
  predicate Overflows(lines: seq<Line>, turns: seq<Turn>, ahead: nat, attached: bool)
    decreases |lines|, 1
  {
    lines != [] && CutOff(lines[0], lines[1..], turns, if ahead > 0 then ahead - 1 else 0, attached)
  }

  /** The same once `line` was taken and `ahead` of the `later` lines are pending. */
  predicate CutOff(line: Line, later: seq<Line>, turns: seq<Turn>, ahead: nat, attached: bool)
    decreases |later| + 1, 0
  {
    if !line.Request? then Overflows(later, turns, ahead, attached)
    else if turns == [] then false
    else
      var owns := attached || line.attaches;
      var pending := ahead + if owns then turns[0].arrivals else 0;
      if !owns || (pending <= MAX_PENDING && pending <= |later|) then
        && turns[0].outcome.Some? && !turns[0].outcome.value.shutdown
        && Overflows(later, turns[1..], pending, attached || turns[0].outcome.value.attached)
      else MAX_PENDING < pending && MAX_PENDING < |later|
  }

  lemma NoDispatch(line: Line, later: seq<Line>, turns: seq<Turn>, ahead: nat, attached: bool)
    requires !line.Request?
    ensures CutOff(line, later, turns, ahead, attached) == Overflows(later, turns, ahead, attached)
  {
    hide Overflows;
  }

  /** The next line, from those read ahead or from the stream. */
  method NextLine(pending: seq<Line>, unread: seq<Line>) returns (line: Line, ahead: seq<Line>, rest: seq<Line>)
    requires pending != [] || unread != []
    ensures [line] + (ahead + rest) == pending + unread
    ensures |ahead| == (if pending == [] then 0 else |pending| - 1) && |ahead| + |rest| + 1 == |pending| + |unread|
  {
    if pending != [] {
      line, ahead, rest := pending[0], pending[1..], unread;
    } else {
      line, ahead, rest := unread[0], [], unread[1..];
    }
  }

  /** `p` lines are processed and nothing has ended the connection yet. */
  ghost predicate StillOpen(input: seq<Line>, turns: seq<Turn>, faults: Faults, p: nat)
    requires p <= |input|
  {
    Reached(input, turns, faults, p) && (p > 0 ==> !Shuts(input, turns, p - 1))
  }

  /** The dispatch of line `p` ended the connection, or the reply to it could not be written. */
  lemma {:induction false} EndsInDispatch(input: seq<Line>, turns: seq<Turn>, faults: Faults, p: nat, ahead: nat, attached: bool, stop: Option<Ending>)
    requires p < |input| && StillOpen(input, turns, faults, p) && !Unreadable(input, turns, faults, p) && input[p].Request?
    requires ahead == Left(Queue(input, turns, p)) && attached == Owner(turns, Requests(input[..p]))
    requires Requests(input[..p]) >= |turns| ==> stop == Some(Dropped)
    requires Requests(input[..p]) < |turns| ==>
      var turn := turns[Requests(input[..p])];
      var wanted := ahead + if attached || input[p].attaches then turn.arrivals else 0;
      stop == if wanted > MAX_PENDING && |input| - p - 1 > MAX_PENDING then Some(TooManyPending)
              else if wanted > |input| - p - 1 then Some(EndOfStream)
              else if turn.outcome.None? then Some(Dropped)
              else None
    ensures stop.Some? ==> StopsAt(input, turns, faults, p, Some(input[p]), stop.value)
    ensures stop.None? && Answerable(input, turns, faults, p) ==> Passes(input, turns, faults, p)
    ensures stop.None? && !Answerable(input, turns, faults, p) ==> StopsAt(input, turns, faults, p, Some(input[p]), Dropped)
  {
    hide Queue, Requests, InOrder, Reached, Owner;
  }

  lemma TakesItsTurn(input: seq<Line>, turns: seq<Turn>, faults: Faults, p: nat)
    requires p < |input| && StillOpen(input, turns, faults, p) && Passes(input, turns, faults, p)
    ensures Reached(input, turns, faults, p + 1) && Requests(input[..p + 1]) == Requests(input[..p]) + Count(input[p])
    ensures Queue(input, turns, p + 1) == Left(Queue(input, turns, p)) + Watched(input, turns, p)
    ensures Shuts(input, turns, p) ==> StopsAt(input, turns, faults, p + 1, None, ShutDown)
    ensures !Shuts(input, turns, p) ==> StillOpen(input, turns, faults, p + 1)
  {
    assert input[..p + 1] == input[..p] + [input[p]];
    RequestsExtend(input[..p], input[p]);
    hide Requests, InOrder, Watched, Passes;
    forall k | 0 <= k < p + 1 ensures Passes(input, turns, faults, k) && (Shuts(input, turns, k) ==> k == p) {
    }
  }

  lemma OwnerExtends(turns: seq<Turn>, n: nat)
    requires n < |turns| && turns[n].outcome.Some?
    ensures Owner(turns, n + 1) == (Owner(turns, n) || turns[n].outcome.value.attached)
  {
    if Owner(turns, n) {
      var i :| 0 <= i < n && turns[i].outcome.Some? && turns[i].outcome.value.attached;
    }
  }

  /** Between two lines: what was processed, read ahead and not read yet, and nothing that ends the connection so far. */
  ghost predicate Running(input: seq<Line>, turns: seq<Turn>, faults: Faults,
                          processed: seq<Line>, pending: seq<Line>, unread: seq<Line>, turn: nat, attached: bool)
  {
    var p := |processed|;
    && p <= |input| && processed == input[..p] && pending + unread == input[p..]
    && turn == Requests(input[..p]) && Answered(turns, turn) && attached == Owner(turns, turn)
    && |pending| <= MAX_PENDING && |pending| == Queue(input, turns, p)
    && StillOpen(input, turns, faults, p)
    && Overflows(input, turns, 0, false) == Overflows(input[p..], turns[turn..], |pending|, attached)
  }

  /** Line `p` goes unanswered: the dispatch, the reads during it or the write of the reply ended the connection. */
  ghost predicate Fails(input: seq<Line>, turns: seq<Turn>, faults: Faults, p: nat, ahead: seq<Line>, rest: seq<Line>, stop: Ending)
    requires p < |input|
  {
    && StopsAt(input, turns, faults, p, Some(input[p]), stop)
    && (stop.TooManyPending? ==> Overflows(input, turns, 0, false))
    && (faults == NO_FAULTS && Overflows(input, turns, 0, false) ==> stop.TooManyPending?)
    && match stop
       case EndOfStream => rest == []
       case TooManyPending => |ahead| == MAX_PENDING && rest != [] && input[p].Request?
       case ShutDown => false
       case Dropped =>
         var n := Requests(input[..p]);
         || (input[p].Request? && (n >= |turns| || turns[n].outcome.None?))
         || (!input[p].Blank? && |InOrder(input[..p], turns)| in faults.outgoing)
  }

  /** Line `p` was answered; `ahead` and `rest` are the lines read ahead and not read yet after that. */
  ghost predicate Succeeds(input: seq<Line>, turns: seq<Turn>, faults: Faults, p: nat, ahead: seq<Line>, attached: bool)
    requires p < |input|
  {
    var n := Requests(input[..p]) + Count(input[p]);
    && Passes(input, turns, faults, p) && Answered(turns, n) && attached == Owner(turns, n)
    && |ahead| == Left(Queue(input, turns, p)) + Watched(input, turns, p)
    && Overflows(input, turns, 0, false) ==
         (!Shuts(input, turns, p) && Overflows(input[p + 1..], turns[n..], |ahead|, attached))
  }

  /** A request is dispatched, any other line only answered. */
  method Serve(ghost input: seq<Line>, turns: seq<Turn>, ghost faults: Faults, ghost processed: seq<Line>,
               line: Line, pending: seq<Line>, unread: seq<Line>, turn: nat, attached: bool)
    returns (ahead: seq<Line>, rest: seq<Line>, owner: bool, stop: Option<Ending>)
    requires |processed| < |input| && processed == input[..|processed|]
    requires line == input[|processed|] && pending + unread == input[|processed| + 1..] && |pending| <= MAX_PENDING
    requires turn == Requests(input[..|processed|]) && Answered(turns, turn) && attached == Owner(turns, turn)
    requires |pending| == Left(Queue(input, turns, |processed|))
    requires StillOpen(input, turns, faults, |processed|) && !Unreadable(input, turns, faults, |processed|)
    requires Overflows(input, turns, 0, false) == CutOff(line, pending + unread, turns[turn..], |pending|, attached)
    ensures ahead + rest == pending + unread && |ahead| <= MAX_PENDING
    ensures stop.Some? ==> Fails(input, turns, faults, |processed|, ahead, rest, stop.value)
    ensures stop.None? && Answerable(input, turns, faults, |processed|) ==>
              Succeeds(input, turns, faults, |processed|, ahead, owner)
    ensures stop.None? && !Answerable(input, turns, faults, |processed|) ==>
              StopsAt(input, turns, faults, |processed|, Some(line), Dropped)
    ensures stop.None? && line.Request? ==> turn < |turns| && turns[turn].outcome.Some?
  {
    ghost var p := |processed|;
    hide Overflows, CutOff, Requests, InOrder, Queue, Reached, StopsAt, Owner, Answerable, Passes, Crowded, HangsUp;
    if line.Request? {
      ahead, rest, owner, stop := Dispatch(line, pending, unread, turns[turn..], attached);
      EndsInDispatch(input, turns, faults, p, |pending|, attached, stop);
      if stop.None? {
        assert turns[turn..][1..] == turns[turn + 1..];
        OwnerExtends(turns, turn);
      }
    } else {
      ahead, rest, owner, stop := pending, unread, attached, None;
      NoDispatch(line, pending + unread, turns[turn..], |pending|, attached);
      EndsOutside(input, turns, faults, p);
    }
  }

  /**
   `handle_requests`. Whatever the turns say, what was processed, the line being dispatched, the lines read ahead
   and the lines not read yet make up the input, and the replies are those of the reference on the processed lines.
   Without socket faults the connection is cut off for pipelining exactly if the reference overflows.
   */
  method HandleRequests(input: seq<Line>, turns: seq<Turn>, faults: Faults) returns (r: Report)
    ensures Conserved(r, input)
    ensures RepliesInOrder(r, turns)
    ensures EndsProperly(r, input, turns, faults)
    ensures EndsExactly(r, input, turns, faults)
    // A shutdown outcome ends the connection at once, and nothing else reports a shutdown.
    ensures forall i :: 0 <= i < Requests(r.processed) && turns[i].outcome.value.shutdown ==>
              r.ending.ShutDown? && i == Requests(r.processed) - 1
    ensures r.ending.ShutDown? ==> Requests(r.processed) > 0 && turns[Requests(r.processed) - 1].outcome.value.shutdown
    ensures r.ending.TooManyPending? ==> Overflows(input, turns, 0, false)
    ensures faults == NO_FAULTS && Overflows(input, turns, 0, false) ==> r.ending.TooManyPending?
  {
    hide Requests, InOrder, CutOff, Overflows, ReplyTo, Queue, StillOpen, Reached, StopsAt, Owner, Answerable, Shuts, Succeeds, Fails,
         Conserved, RepliesInOrder, EndsProperly, EndsExactly, Unreadable;
    var unread, pending, processed: seq<Line>, replies: seq<Reply> := input, [], [], [];
    var turn: nat := 0;
    var attached := false;
    FreshConnection(input, turns, faults);
    while pending != [] || unread != []
      invariant Running(input, turns, faults, processed, pending, unread, turn, attached)
      invariant replies == InOrder(processed, turns)
      invariant forall i :: 0 <= i < turn ==> !turns[i].outcome.value.shutdown
      decreases |pending| + |unread|
    {
      ghost var p := |processed|;
      if pending == [] && |processed| in faults.incoming {
        EndsIdle(input, turns, faults, p);
        EndsBetween(input, turns, faults, p, pending, unread, Dropped);
        return Report(processed, None, pending, unread, replies, Dropped);
      }
      var line, ahead, rest := NextLine(pending, unread);
      LineTaken(input, turns, faults, processed, pending, unread, turn, attached, line, ahead, rest);
      var owner, stop;
      pending, unread, owner, stop := Serve(input, turns, faults, processed, line, ahead, rest, turn, attached);
      AnswerableWhen(input, turns, faults, p);
      if stop.Some? || (!line.Blank? && |replies| in faults.outgoing) {
        EndsDuring(input, turns, faults, p, pending, unread, stop);
        return Report(processed, Some(line), pending, unread, replies, if stop.Some? then stop.value else Dropped);
      }
      Advances(input, turns, faults, p, turn, pending, unread, owner);
      assert processed + [line] == input[..p + 1];
      InOrderExtends(processed, line, turns);
      replies := replies + ReplyTo(line, turns, turn);
      processed, turn, attached := processed + [line], turn + Count(line), owner;
      if line.Request? && turns[turn - 1].outcome.value.shutdown {
        EndsBetween(input, turns, faults, p + 1, pending, unread, ShutDown);
        return Report(processed, None, pending, unread, replies, ShutDown);
      }
    }
    NothingLeft(input, turns, faults, processed, turn, attached);
    EndsIdle(input, turns, faults, |processed|);
    var ending := if |processed| in faults.incoming then Dropped else EndOfStream;
    EndsBetween(input, turns, faults, |processed|, [], [], ending);
    return Report(processed, None, [], [], replies, ending);
  }

  lemma ShutsLast(input: seq<Line>, turns: seq<Turn>, p: nat)
    requires 0 < p <= |input| && Shuts(input, turns, p - 1)
    ensures 0 < Requests(input[..p]) <= |turns|
    ensures turns[Requests(input[..p]) - 1].outcome.Some? && turns[Requests(input[..p]) - 1].outcome.value.shutdown
  {
    assert input[..p] == input[..p - 1] + [input[p - 1]];
    RequestsExtend(input[..p - 1], input[p - 1]);
  }

  /** The report of a connection that ended between two lines. */
  lemma EndsBetween(input: seq<Line>, turns: seq<Turn>, faults: Faults, p: nat, pending: seq<Line>, unread: seq<Line>, ending: Ending)
    requires p <= |input| && pending + unread == input[p..] && |pending| <= MAX_PENDING
    requires Answered(turns, Requests(input[..p])) && Reached(input, turns, faults, p)
    requires StopsAt(input, turns, faults, p, None, ending)
    requires ending.Dropped? ==> pending == [] && p in faults.incoming
    requires ending.EndOfStream? ==> p == |input|
    ensures var r := Report(input[..p], None, pending, unread, InOrder(input[..p], turns), ending);
            Conserved(r, input) && RepliesInOrder(r, turns) && EndsProperly(r, input, turns, faults) && EndsExactly(r, input, turns, faults)
  {
    WholeBetween(input, input[..p], pending, unread);
    if ending.ShutDown? {
      ShutsLast(input, turns, p);
    }
    assert |input[..p]| == p && (p == |input| ==> input[..p] == input);
    hide Shuts, AsSeq, Whole, Requests, InOrder, Reached, Unreadable, Answerable, Crowded, HangsUp, Queue, Owner, Overflows;
  }

  /** The report of a connection that ended while line `p` was served. */
  lemma {:induction false} EndsDuring(input: seq<Line>, turns: seq<Turn>, faults: Faults, p: nat, ahead: seq<Line>, rest: seq<Line>, stop: Option<Ending>)
    requires p < |input| && ahead + rest == input[p + 1..] && |ahead| <= MAX_PENDING
    requires Answered(turns, Requests(input[..p])) && Reached(input, turns, faults, p)
    requires if stop.Some? then Fails(input, turns, faults, p, ahead, rest, stop.value)
             else StopsAt(input, turns, faults, p, Some(input[p]), Dropped) && !input[p].Blank? && |InOrder(input[..p], turns)| in faults.outgoing
    ensures var r := Report(input[..p], Some(input[p]), ahead, rest, InOrder(input[..p], turns), if stop.Some? then stop.value else Dropped);
            && Conserved(r, input) && RepliesInOrder(r, turns) && EndsProperly(r, input, turns, faults) && EndsExactly(r, input, turns, faults)
            && !r.ending.ShutDown?
            && (r.ending.TooManyPending? ==> Overflows(input, turns, 0, false))
            && (faults == NO_FAULTS && Overflows(input, turns, 0, false) ==> r.ending.TooManyPending?)
  {
    WholeDuring(input, input[..p], ahead, rest);
    hide Whole, Requests, InOrder, Reached, Overflows, StopsAt;
  }

  lemma FreshConnection(input: seq<Line>, turns: seq<Turn>, faults: Faults)
    ensures Running(input, turns, faults, [], [], input, 0, false) && InOrder([], turns) == []
  {
    assert input[0..] == input && [] + input == input && turns[0..] == turns;
    hide Overflows;
  }

  lemma LineTaken(input: seq<Line>, turns: seq<Turn>, faults: Faults, processed: seq<Line>, pending: seq<Line>, unread: seq<Line>,
                  turn: nat, attached: bool, line: Line, ahead: seq<Line>, rest: seq<Line>)
    requires Running(input, turns, faults, processed, pending, unread, turn, attached)
    requires [line] + (ahead + rest) == pending + unread
    requires |ahead| == Left(|pending|)
    requires !(pending == [] && |processed| in faults.incoming)
    ensures |processed| < |input| && line == input[|processed|] && ahead + rest == input[|processed| + 1..]
    ensures Reached(input, turns, faults, |processed|)
    ensures |ahead| == Left(Queue(input, turns, |processed|)) && !Unreadable(input, turns, faults, |processed|)
    ensures Overflows(input, turns, 0, false) == CutOff(line, ahead + rest, turns[turn..], |ahead|, attached)
  {
    hide CutOff, Queue, Requests, Reached, Owner;
    var left := input[|processed|..];
    assert left == pending + unread && left[0] == line && left[1..] == ahead + rest;
  }

  /** One more line is processed, and the connection goes on unless that line shuts the daemon down. */
  lemma Advances(input: seq<Line>, turns: seq<Turn>, faults: Faults, p: nat, turn: nat, ahead: seq<Line>, rest: seq<Line>, owner: bool)
    requires p < |input| && turn == Requests(input[..p]) && Answered(turns, turn)
    requires StillOpen(input, turns, faults, p) && ahead + rest == input[p + 1..] && |ahead| <= MAX_PENDING
    requires Succeeds(input, turns, faults, p, ahead, owner)
    ensures Reached(input, turns, faults, p + 1) && Answered(turns, turn + Count(input[p]))
    ensures Shuts(input, turns, p) <==> input[p].Request? && turns[turn].outcome.value.shutdown
    ensures Shuts(input, turns, p) ==> StopsAt(input, turns, faults, p + 1, None, ShutDown) && !Overflows(input, turns, 0, false)
    ensures !Shuts(input, turns, p) ==>
              Running(input, turns, faults, input[..p + 1], ahead, rest, turn + Count(input[p]), owner)
  {
    TakesItsTurn(input, turns, faults, p);
    assert |input[..p + 1]| == p + 1;
    hide Overflows, CutOff, Requests, Queue, Reached, StopsAt, Owner, Watched, StillOpen, Passes, InOrder;
  }

  lemma WholeBetween(input: seq<Line>, processed: seq<Line>, pending: seq<Line>, unread: seq<Line>)
    requires |processed| <= |input| && processed == input[..|processed|] && pending + unread == input[|processed|..]
    ensures Whole(processed, None, pending, unread) == input
  {
    assert Whole(processed, None, pending, unread) == processed + (pending + unread);
  }

  lemma WholeDuring(input: seq<Line>, processed: seq<Line>, pending: seq<Line>, unread: seq<Line>)
    requires |processed| < |input| && processed == input[..|processed|] && pending + unread == input[|processed| + 1..]
    ensures Whole(processed, Some(input[|processed|]), pending, unread) == input
  {
    assert Whole(processed, Some(input[|processed|]), pending, unread) == processed + ([input[|processed|]] + (pending + unread));
  }

  /** Between two lines, a connection ends by a failed read or because everything was read. */
  lemma EndsIdle(input: seq<Line>, turns: seq<Turn>, faults: Faults, p: nat)
    requires p <= |input| && StillOpen(input, turns, faults, p)
    ensures Reached(input, turns, faults, p)
    ensures Queue(input, turns, p) == 0 && p in faults.incoming ==> StopsAt(input, turns, faults, p, None, Dropped)
    ensures p == |input| && (Queue(input, turns, p) != 0 || p !in faults.incoming) ==>
              StopsAt(input, turns, faults, p, None, EndOfStream)
  {
    hide Queue, Reached, Shuts;
  }

  lemma NothingLeft(input: seq<Line>, turns: seq<Turn>, faults: Faults, processed: seq<Line>, turn: nat, attached: bool)
    requires Running(input, turns, faults, processed, [], [], turn, attached)
    ensures processed == input && !Overflows(input, turns, 0, false)
  {
    hide Queue, Requests, StillOpen, Owner, CutOff;
  }

  lemma {:induction false} EndsOutside(input: seq<Line>, turns: seq<Turn>, faults: Faults, p: nat)
    requires p < |input| && StillOpen(input, turns, faults, p) && !Unreadable(input, turns, faults, p) && !input[p].Request?
    ensures Answerable(input, turns, faults, p) ==> Passes(input, turns, faults, p)
    ensures !Answerable(input, turns, faults, p) ==> StopsAt(input, turns, faults, p, Some(input[p]), Dropped)
    ensures Watched(input, turns, p) == 0
  {
    hide Queue, Reached, Shuts, Requests, InOrder;
  }

  lemma AnswerableWhen(input: seq<Line>, turns: seq<Turn>, faults: Faults, p: nat)
    requires p < |input|
    ensures input[p].Request? && Requests(input[..p]) < |turns| && turns[Requests(input[..p])].outcome.Some? ==>
              (Answerable(input, turns, faults, p) <==> |InOrder(input[..p], turns)| !in faults.outgoing)
    ensures !input[p].Request? ==> (Answerable(input, turns, faults, p) <==> input[p].Blank? || |InOrder(input[..p], turns)| !in faults.outgoing)
  {
  }

  /** A client that sends no more than one line during each dispatch is never cut off, however much it sends in all. */
  lemma {:induction false} SteadyClientFits(lines: seq<Line>, turns: seq<Turn>, ahead: nat, attached: bool)
    requires ahead <= MAX_PENDING && forall i :: 0 <= i < |turns| ==> turns[i].arrivals <= 1
    ensures !Overflows(lines, turns, ahead, attached)
    decreases |lines|
  {
    if lines != [] {
      var left := if ahead > 0 then ahead - 1 else 0;
      if !lines[0].Request? {
        SteadyClientFits(lines[1..], turns, left, attached);
      } else if turns != [] && turns[0].outcome.Some? {
        var attached' := attached || turns[0].outcome.value.attached;
        SteadyClientFits(lines[1..], turns[1..], left, attached');
        SteadyClientFits(lines[1..], turns[1..], left + turns[0].arrivals, attached');
      }
    }
  }

  /** Nor is a client that sends no more than seventeen lines. */
  lemma {:induction false} ShortInputFits(lines: seq<Line>, turns: seq<Turn>, ahead: nat, attached: bool)
    requires |lines| <= 17
    ensures !Overflows(lines, turns, ahead, attached)
    decreases |lines|
  {
    if lines != [] {
      var left := if ahead > 0 then ahead - 1 else 0;
      if !lines[0].Request? {
        ShortInputFits(lines[1..], turns, left, attached);
      } else if turns != [] && turns[0].outcome.Some? {
        var attached' := attached || turns[0].outcome.value.attached;
        ShortInputFits(lines[1..], turns[1..], left, attached');
        ShortInputFits(lines[1..], turns[1..], left + turns[0].arrivals, attached');
      }
    }
  }

  /** Eighteen lines can be one too many: an attaching client that sends seventeen more during its first dispatch is cut off. */
  lemma {:induction false} EagerClientOverflows(lines: seq<Line>, turns: seq<Turn>)
    requires |lines| >= 18 && lines[0].Request? && lines[0].attaches && turns != [] && turns[0].arrivals >= 17
    ensures Overflows(lines, turns, 0, false)
  {
    assert CutOff(lines[0], lines[1..], turns, 0, false);
  }

  /** A client that stays within the limit is never cut off for pipelining, and if its stream simply ends, every line was answered. */
  method PoliteClientIsServed(input: seq<Line>, turns: seq<Turn>, faults: Faults) returns (r: Report)
    requires !Overflows(input, turns, 0, false)
    ensures !r.ending.TooManyPending?
    ensures r.ending.EndOfStream? && r.current.None? ==> r.replies == InOrder(input, turns) && |r.replies| == |NonBlank(input)|
  {
    r := HandleRequests(input, turns, faults);
    OneReplyPerLine(r.processed, turns, Requests(r.processed));
  }

  /** How far the reads ran ahead decides where a connection stops, never what it answers. */
  lemma {:induction false} RepliesIgnoreReadAhead(input: seq<Line>, turns: seq<Turn>, others: seq<Turn>, a: seq<Line>, b: seq<Line>)
    requires a <= b <= input
    requires |turns| == |others| && forall i :: 0 <= i < |turns| ==> turns[i].outcome == others[i].outcome
    requires Answered(turns, Requests(b))
    ensures InOrder(a, turns) <= InOrder(b, others)
  {
    assert a + b[|a|..] == b;
    InOrderIsMonotone(a, b[|a|..], turns);
    SameOutcomesSameReplies(b, turns, others);
  }

  lemma {:induction false} SameOutcomesSameReplies(lines: seq<Line>, turns: seq<Turn>, others: seq<Turn>)
    requires |turns| == |others| && forall i :: 0 <= i < |turns| ==> turns[i].outcome == others[i].outcome
    ensures InOrder(lines, turns) == InOrder(lines, others)
  {
    if lines != [] {
      if lines[0].Request? && turns != [] {
        SameOutcomesSameReplies(lines[1..], turns[1..], others[1..]);
      } else {
        SameOutcomesSameReplies(lines[1..], turns, others);
      }
    }
  }
}
