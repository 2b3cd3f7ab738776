/** A search through the daemon (`search_semantic_daemon` in `src/tools/search.rs`): re-attaching once, and checking the answer. */
module DaemonSearch {
  import opened Wrappers

  type AttachmentId = nat
  type Revision = nat

  datatype Hit = Hit(path: string, revision: Revision)

  datatype Error = LocalSelected | NotAttached | TooMany | OutsideScope | Changed | OtherError(code: int)

  /** The replies of the daemon and of the shared attachment to one search. */
  datatype Env = Env(
    localSelected: bool,
    resolved: Option<Error>,
    handle: Result<AttachmentId, Error>,
    firstReply: Result<seq<Hit>, Error>,
    replacement: Result<AttachmentId, Error>,
    secondReply: Result<seq<Hit>, Error>)

  /** Paths are requested ones, each at most once. */
  predicate InScope(hits: seq<Hit>, allowed: set<string>) {
    && (forall i :: 0 <= i < |hits| ==> hits[i].path in allowed)
    && forall i, j :: 0 <= i < j < |hits| ==> hits[i].path != hits[j].path
  }

  /** The notes are still the ones that were ranked. */
  predicate Current(hits: seq<Hit>, revisions: map<string, Revision>) {
    forall i :: 0 <= i < |hits| ==> hits[i].path in revisions && revisions[hits[i].path] == hits[i].revision
  }

  /** An answer is accepted exactly if it is short enough, within scope, free of duplicates and current; the first fault is named. */
  method AcceptHits(hits: seq<Hit>, topK: nat, allowed: set<string>, revisions: map<string, Revision>) returns (fault: Option<Error>)
    ensures fault.None? <==> |hits| <= topK && InScope(hits, allowed) && Current(hits, revisions)
    ensures fault == Some(TooMany) <==> |hits| > topK
    ensures fault == Some(OutsideScope) <==> |hits| <= topK && !InScope(hits, allowed)
    ensures fault == Some(Changed) <==> |hits| <= topK && InScope(hits, allowed) && !Current(hits, revisions)
  {
    if |hits| > topK {
      return Some(TooMany);
    }
    var seen: set<string> := {};
    for i := 0 to |hits|
      invariant InScope(hits[..i], allowed)
      invariant forall p :: p in seen <==> exists k :: 0 <= k < i && hits[k].path == p
    {
      if hits[i].path !in allowed || hits[i].path in seen {
        return Some(OutsideScope);
      }
      seen := seen + {hits[i].path};
    }
    assert hits[..|hits|] == hits;
    for i := 0 to |hits|
      invariant Current(hits[..i], revisions)
    {
      if hits[i].path !in revisions || revisions[hits[i].path] != hits[i].revision {
        return Some(Changed);
      }
    }
    return None;
  }

  /**
   One search. Only a daemon that no longer knows the attachment is asked again, once, with its replacement; hits are
   returned only when the last answer was accepted.
   */
  method SearchDaemon(env: Env, topK: nat, allowed: set<string>, revisions: map<string, Revision>)
    returns (r: Result<seq<Hit>, Error>, asked: seq<AttachmentId>)
    ensures |asked| <= 2
    ensures asked != [] <==> !env.localSelected && env.resolved.None? && env.handle.Ok?
    ensures asked != [] ==> asked[0] == env.handle.value
    ensures |asked| == 2 <==> asked != [] && env.firstReply == Err(NotAttached) && env.replacement.Ok?
    ensures |asked| == 2 ==> asked[1] == env.replacement.value
    ensures r.Ok? <==>
      && asked != []
      && var reply := if |asked| == 2 then env.secondReply else env.firstReply;
         reply.Ok? && |reply.value| <= topK && InScope(reply.value, allowed) && Current(reply.value, revisions)
    ensures r.Ok? ==> r.value == (if |asked| == 2 then env.secondReply.value else env.firstReply.value)
    // A search that was not carried out, or not answered, fails with what stopped it.
    ensures env.localSelected ==> r == Err(LocalSelected)
    ensures !env.localSelected && env.resolved.Some? ==> r == Err(env.resolved.value)
    ensures !env.localSelected && env.resolved.None? && env.handle.Err? ==> r == Err(env.handle.error)
    ensures |asked| == 1 && env.firstReply == Err(NotAttached) ==> env.replacement.Err? && r == Err(env.replacement.error)
    ensures |asked| == 1 && env.firstReply.Err? && env.firstReply.error != NotAttached ==> r == Err(env.firstReply.error)
    ensures |asked| == 2 && env.secondReply.Err? ==> r == Err(env.secondReply.error)
    ensures asked != [] && r.Err? ==>
      var reply := if |asked| == 2 then env.secondReply else env.firstReply;
      reply.Ok? ==> r.error == if |reply.value| > topK then TooMany else if !InScope(reply.value, allowed) then OutsideScope else Changed
  {
    asked := [];
    if env.localSelected {
      return Err(LocalSelected), asked;
    }
    if env.resolved.Some? {
      return Err(env.resolved.value), asked;
    }
    if env.handle.Err? {
      return Err(env.handle.error), asked;
    }
    asked := [env.handle.value];
    var reply := env.firstReply;
    if reply == Err(NotAttached) {
      if env.replacement.Err? {
        return Err(env.replacement.error), asked;
      }
      asked := asked + [env.replacement.value];
      reply := env.secondReply;
    }
    if reply.Err? {
      return Err(reply.error), asked;
    }
    var fault := AcceptHits(reply.value, topK, allowed, revisions);
    if fault.Some? {
      return Err(fault.value), asked;
    }
    return Ok(reply.value), asked;
  }
}
