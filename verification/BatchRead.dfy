/** `note_read_many` (`src/tools/notes.rs`): reading a batch of notes within a file and a byte budget. */
module BatchRead {
  import opened Wrappers

  const DEFAULT_MAX_FILES := 20
  const MAX_FILES_CAP := 100
  const DEFAULT_MAX_BYTES := 65536
  const MAX_BYTES_CAP := 262144
  const MAX_SKIPPED_DETAILS := 100

  type Byte = b: int | 0 <= b < 256

  /** The vault errors this code tells apart; `PermissionDenied` says whether it arose while opening or reading. */
  datatype Failure = NoteNotFound | Io | InvalidSource | PermissionDenied(reading: bool) | ResourceLimit | Fatal

  datatype Reason = NotFound | Unreadable | ByteLimit | FileLimit

  datatype Note = Note(path: string, content: seq<Byte>)
  datatype Skipped = Skipped(path: string, reason: Reason)

  /** What the storage answers about one candidate; a bounded read may refuse content that is too long, or return it. */
  datatype Candidate = Candidate(
    displayPath: string,
    validation: Option<Failure>,
    prepared: Result<string, Failure>,
    size: Result<nat, Failure>,
    content: Result<seq<Byte>, Failure>,
    refusesLong: bool)

  datatype Output = Output(notes: seq<Note>, skipped: seq<Skipped>, skippedCount: nat, contentBytes: nat)

  datatype Error = InvalidParams | Vault(failure: Failure)

  function ValidatedLimit(requested: Option<nat>, default: nat, cap: nat): (r: Option<nat>)
    requires 0 < default <= cap
    ensures r.Some? ==> 0 < r.value <= cap
    ensures r.None? <==> requested == Some(0)
    // The default unless asked for something else, and what was asked for up to the cap.
    ensures requested.None? ==> r == Some(default)
    ensures requested.Some? && 0 < requested.value <= cap ==> r == requested
    ensures requested.Some? && requested.value > cap ==> r == Some(cap)
  {
    var value := if requested.Some? then requested.value else default;
    if value == 0 then None else Some(if value < cap then value else cap)
  }

  /** Failures of one file are recorded; all others end the call. */
  function FileError(e: Failure): Option<Reason> {
    match e
    case NoteNotFound => Some(NotFound)
    case Io => Some(Unreadable)
    case InvalidSource => Some(Unreadable)
    case PermissionDenied(reading) => if reading then Some(Unreadable) else None
    case ResourceLimit => None
    case Fatal => None
  }

  function ReadBounded(c: Candidate, remaining: nat): Result<seq<Byte>, Failure> {
    if c.content.Ok? && |c.content.value| > remaining && c.refusesLong then Err(ResourceLimit) else c.content
  }

  datatype Verdict = Include(note: Note) | Skip(detail: Skipped) | Abort(failure: Failure)

  function OnError(e: Failure, path: string): Verdict {
    match FileError(e)
    case Some(reason) => Skip(Skipped(path, reason))
    case None => Abort(e)
  }

  /** What becomes of one inspected candidate. */
  function Judge(c: Candidate, remaining: nat): Verdict {
    match c.prepared
    case Err(e) => OnError(e, c.displayPath)
    case Ok(path) =>
      match c.size
      case Err(e) => OnError(e, path)
      case Ok(size) =>
        if size > remaining then Skip(Skipped(path, ByteLimit))
        else
          match ReadBounded(c, remaining)
          case Err(e) => if e.ResourceLimit? then Skip(Skipped(path, ByteLimit)) else OnError(e, path)
          case Ok(content) =>
            if |content| > remaining then Skip(Skipped(path, ByteLimit)) else Include(Note(path, content))
  }

  function RecordSkipped(skipped: seq<Skipped>, detail: Skipped): seq<Skipped> {
    if |skipped| < MAX_SKIPPED_DETAILS then skipped + [detail] else skipped
  }

  const NOTHING := Output([], [], 0, 0)

  function Advance(o: Output, c: Candidate, maxBytes: nat): Result<Output, Failure>
    requires o.contentBytes <= maxBytes
  {
    match Judge(c, maxBytes - o.contentBytes)
    case Include(note) => Ok(o.(notes := o.notes + [note], contentBytes := o.contentBytes + |note.content|))
    case Skip(detail) => Ok(o.(skipped := RecordSkipped(o.skipped, detail), skippedCount := o.skippedCount + 1))
    case Abort(e) => Err(e)
  }

  /** The state after inspecting the first `n` candidates. */
  function Inspect(cs: seq<Candidate>, n: nat, maxBytes: nat): (r: Result<Output, Failure>)
    requires n <= |cs|
    ensures r.Ok? ==> r.value.contentBytes <= maxBytes
  {
    if n == 0 then Ok(NOTHING)
    else
      match Inspect(cs, n - 1, maxBytes)
      case Err(e) => Err(e)
      case Ok(o) => Advance(o, cs[n - 1], maxBytes)
  }

  function Unread(cs: seq<Candidate>): (r: seq<Skipped>)
    ensures |r| == |cs|
    ensures forall i :: 0 <= i < |cs| ==> r[i] == Skipped(cs[i].displayPath, FileLimit)
  {
    if cs == [] then [] else [Skipped(cs[0].displayPath, FileLimit)] + Unread(cs[1..])
  }

  function Min(a: nat, b: nat): nat {
    if a < b then a else b
  }

  /** The candidates past the file limit are counted, and listed while there is room. */
  function Close(o: Output, cs: seq<Candidate>, n: nat): Output
    requires n <= |cs|
  {
    var slots := if |o.skipped| < MAX_SKIPPED_DETAILS then MAX_SKIPPED_DETAILS - |o.skipped| else 0;
    o.(skippedCount := o.skippedCount + (|cs| - n),
       skipped := o.skipped + Unread(cs[n..][..Min(slots, |cs| - n)]))
  }

  /** The first failed validation, if the paths were given explicitly. */
  function Validation(cs: seq<Candidate>, explicit: bool): Option<Failure> {
    if !explicit || cs == [] then None
    else if cs[0].validation.Some? then cs[0].validation
    else Validation(cs[1..], explicit)
  }

  function ReadMany(cs: seq<Candidate>, explicit: bool, files: Option<nat>, bytes: Option<nat>): Result<Output, Error> {
    match (ValidatedLimit(files, DEFAULT_MAX_FILES, MAX_FILES_CAP), ValidatedLimit(bytes, DEFAULT_MAX_BYTES, MAX_BYTES_CAP))
    case (Some(maxFiles), Some(maxBytes)) =>
      if explicit && (cs == [] || |cs| > MAX_FILES_CAP) then Err(InvalidParams)
      else if Validation(cs, explicit).Some? then Err(Vault(Validation(cs, explicit).value))
      else
        (match Inspect(cs, Min(|cs|, maxFiles), maxBytes)
         case Err(e) => Err(Vault(e))
         case Ok(o) => Ok(Close(o, cs, Min(|cs|, maxFiles))))
    case _ => Err(InvalidParams)
  }

  // ---------------------------------------------------------------------------------------
  // The selectors
  // ---------------------------------------------------------------------------------------

  /**
   The parameters of a call: explicit paths, or a directory whose listing may fail. `recursive` and `glob` say whether
   those options were given.
   */
  datatype Params = Params(
    paths: Option<seq<Candidate>>,
    dir: Option<Result<seq<Candidate>, Failure>>,
    recursive: bool,
    glob: bool,
    maxFiles: Option<nat>,
    maxBytes: Option<nat>)

  function FileName(path: string): string {
    if path == "" || path[|path| - 1] in "/\\" then "" else FileName(path[..|path| - 1]) + [path[|path| - 1]]
  }

  /** The last extension of the file name is `md`, in any case, after a stem that is not empty. */
  predicate IsMarkdown(path: string) {
    var name := FileName(path);
    |name| > 3 && name[|name| - 3] == '.' && name[|name| - 2] in "mM" && name[|name| - 1] in "dD"
  }

  function Markdown(listed: seq<Candidate>): seq<Candidate> {
    if listed == [] then []
    else
      var before, last := Markdown(listed[..|listed| - 1]), listed[|listed| - 1];
      if IsMarkdown(last.displayPath) then before + [last] else before
  }

  predicate LimitsOk(p: Params) {
    && ValidatedLimit(p.maxFiles, DEFAULT_MAX_FILES, MAX_FILES_CAP).Some?
    && ValidatedLimit(p.maxBytes, DEFAULT_MAX_BYTES, MAX_BYTES_CAP).Some?
  }

  /** The candidates, and whether they were named explicitly. */
  function Select(p: Params): Result<(seq<Candidate>, bool), Error> {
    if p.paths.Some? && (p.recursive || p.glob) then Err(InvalidParams)
    else
      match (p.paths, p.dir)
      case (Some(paths), None) => if paths == [] || |paths| > MAX_FILES_CAP then Err(InvalidParams) else Ok((paths, true))
      case (None, Some(Ok(listed))) => Ok((Markdown(listed), false))
      case (None, Some(Err(e))) => Err(Vault(e))
      case _ => Err(InvalidParams)
  }

  /** `note_read_many` as a whole. */
  function Answer(p: Params): Result<Output, Error> {
    if !LimitsOk(p) then Err(InvalidParams)
    else
      match Select(p)
      case Err(e) => Err(e)
      case Ok((cs, explicit)) => ReadMany(cs, explicit, p.maxFiles, p.maxBytes)
  }

  // ---------------------------------------------------------------------------------------
  // The loop
  // ---------------------------------------------------------------------------------------

  method ReadSelected(cs: seq<Candidate>, explicit: bool, files: Option<nat>, bytes: Option<nat>)
    returns (r: Result<Output, Error>)
    ensures r == ReadMany(cs, explicit, files, bytes)
  {
    hide Inspect, Unread, Validation, ValidatedLimit;
    var maxFiles := ValidatedLimit(files, DEFAULT_MAX_FILES, MAX_FILES_CAP);
    var maxBytes := ValidatedLimit(bytes, DEFAULT_MAX_BYTES, MAX_BYTES_CAP);
    if maxFiles.None? || maxBytes.None? {
      return Err(InvalidParams);
    }
    if explicit && (cs == [] || |cs| > MAX_FILES_CAP) {
      return Err(InvalidParams);
    }
    var failed := FirstInvalid(cs, explicit);
    if failed.Some? {
      return Err(Vault(failed.value));
    }
    var inspected := Min(|cs|, maxFiles.value);
    var progress := InspectAll(cs, inspected, maxBytes.value);
    if progress.Err? {
      return Err(Vault(progress.error));
    }
    var Output(notes, skipped, skippedCount, contentBytes) := progress.value;
    var slots := if |skipped| < MAX_SKIPPED_DETAILS then MAX_SKIPPED_DETAILS - |skipped| else 0;
    skippedCount := skippedCount + (|cs| - inspected);
    skipped := skipped + Unread(cs[inspected..][..Min(slots, |cs| - inspected)]);
    return Ok(Output(notes, skipped, skippedCount, contentBytes));
  }

  method MarkdownOnly(listed: seq<Candidate>) returns (cs: seq<Candidate>)
    ensures cs == Markdown(listed)
  {
    cs := [];
    for i := 0 to |listed|
      invariant cs == Markdown(listed[..i])
    {
      assert listed[..i + 1][..i] == listed[..i];
      if IsMarkdown(listed[i].displayPath) {
        cs := cs + [listed[i]];
      }
    }
    assert listed[..|listed|] == listed;
  }

  method NoteReadMany(p: Params) returns (r: Result<Output, Error>)
    ensures r == Answer(p)
  {
    hide ReadMany, Markdown;
    if !LimitsOk(p) {
      return Err(InvalidParams);
    }
    if p.paths.Some? && (p.recursive || p.glob) {
      return Err(InvalidParams);
    }
    if p.paths.Some? == p.dir.Some? {
      return Err(InvalidParams);
    }
    if p.paths.Some? {
      if p.paths.value == [] || |p.paths.value| > MAX_FILES_CAP {
        return Err(InvalidParams);
      }
      r := ReadSelected(p.paths.value, true, p.maxFiles, p.maxBytes);
    } else {
      if p.dir.value.Err? {
        return Err(Vault(p.dir.value.error));
      }
      var cs := MarkdownOnly(p.dir.value.value);
      r := ReadSelected(cs, false, p.maxFiles, p.maxBytes);
    }
  }

  method InspectAll(cs: seq<Candidate>, inspected: nat, maxBytes: nat) returns (r: Result<Output, Failure>)
    requires inspected <= |cs|
    ensures r == Inspect(cs, inspected, maxBytes)
  {
    var notes, skipped, skippedCount, contentBytes := [], [], 0, 0;
    for i := 0 to inspected
      invariant 0 <= contentBytes <= maxBytes
      invariant Inspect(cs, i, maxBytes) == Ok(Output(notes, skipped, skippedCount, contentBytes))
    {
      hide Judge;
      var verdict := JudgeCandidate(cs[i], maxBytes - contentBytes);
      match verdict
      case Include(note) =>
        JudgedNoteFits(cs[i], maxBytes - contentBytes);
        contentBytes := contentBytes + |note.content|;
        notes := notes + [note];
      case Skip(detail) =>
        skippedCount := skippedCount + 1;
        if |skipped| < MAX_SKIPPED_DETAILS {
          skipped := skipped + [detail];
        }
      case Abort(e) =>
        FailureEndsIt(cs, i + 1, inspected, maxBytes);
        return Err(e);
    }
    return Ok(Output(notes, skipped, skippedCount, contentBytes));
  }

  lemma JudgedNoteFits(c: Candidate, remaining: nat)
    ensures Judge(c, remaining).Include? ==> |Judge(c, remaining).note.content| <= remaining
  {
  }

  method FirstInvalid(cs: seq<Candidate>, explicit: bool) returns (r: Option<Failure>)
    ensures r == Validation(cs, explicit)
  {
    if !explicit {
      return None;
    }
    assert cs[0..] == cs;
    for i := 0 to |cs|
      invariant Validation(cs[i..], true) == Validation(cs, true)
    {
      if cs[i].validation.Some? {
        return cs[i].validation;
      }
      assert cs[i..][1..] == cs[i + 1..];
    }
    return None;
  }

  /** The body of the loop, with its early exits. */
  method JudgeCandidate(c: Candidate, remaining: nat) returns (v: Verdict)
    ensures v == Judge(c, remaining)
  {
    if c.prepared.Err? {
      return OnError(c.prepared.error, c.displayPath);
    }
    var path := c.prepared.value;
    if c.size.Err? {
      return OnError(c.size.error, path);
    }
    if c.size.value > remaining {
      return Skip(Skipped(path, ByteLimit));
    }
    var content := ReadBounded(c, remaining);
    if content == Err(ResourceLimit) {
      return Skip(Skipped(path, ByteLimit));
    }
    if content.Err? {
      return OnError(content.error, path);
    }
    if |content.value| > remaining {
      return Skip(Skipped(path, ByteLimit));
    }
    return Include(Note(path, content.value));
  }

  lemma {:induction false} FailureEndsIt(cs: seq<Candidate>, i: nat, n: nat, maxBytes: nat)
    requires i <= n <= |cs| && Inspect(cs, i, maxBytes).Err?
    ensures Inspect(cs, n, maxBytes) == Inspect(cs, i, maxBytes)
    decreases n - i
  {
    if i < n {
      FailureEndsIt(cs, i, n - 1, maxBytes);
    }
  }

  // ---------------------------------------------------------------------------------------
  // What a successful call returns
  // ---------------------------------------------------------------------------------------

  function TotalBytes(notes: seq<Note>): nat {
    if notes == [] then 0 else TotalBytes(notes[..|notes| - 1]) + |notes[|notes| - 1].content|
  }

  /** The note could be resolved, looked at and read. */
  predicate Readable(c: Candidate) {
    c.prepared.Ok? && c.size.Ok? && c.content.Ok?
  }

  /** Both the size reported beforehand and the content read fit. */
  predicate Fits(c: Candidate, remaining: nat)
    requires Readable(c)
  {
    c.size.value <= remaining && |c.content.value| <= remaining
  }

  function Budget(cs: seq<Candidate>, i: nat, maxBytes: nat): nat
    requires i <= |cs| && Inspect(cs, i, maxBytes).Ok?
  {
    maxBytes - Inspect(cs, i, maxBytes).value.contentBytes
  }

  /** The candidates among the first `n` whose notes are returned, and those that are not. */
  function Taken(cs: seq<Candidate>, n: nat, maxBytes: nat): seq<nat>
    requires n <= |cs| && Inspect(cs, n, maxBytes).Ok?
  {
    if n == 0 then []
    else Taken(cs, n - 1, maxBytes) + if Judge(cs[n - 1], Budget(cs, n - 1, maxBytes)).Include? then [n - 1] else []
  }

  function Missed(cs: seq<Candidate>, n: nat, maxBytes: nat): seq<nat>
    requires n <= |cs| && Inspect(cs, n, maxBytes).Ok?
  {
    if n == 0 then []
    else Missed(cs, n - 1, maxBytes) + if Judge(cs[n - 1], Budget(cs, n - 1, maxBytes)).Include? then [] else [n - 1]
  }

  /** `note` is what candidate `i` resolved to and contained. */
  predicate Shows(cs: seq<Candidate>, i: nat, note: Note)
    requires i < |cs|
  {
    Readable(cs[i]) && note == Note(cs[i].prepared.value, cs[i].content.value)
  }

  predicate Increasing(s: seq<nat>) {
    forall i, j :: 0 <= i < j < |s| ==> s[i] < s[j]
  }

  /** A note is included exactly when it is readable and fits what its predecessors left of the budget. */
  lemma IncludedExactlyWhenItFits(c: Candidate, remaining: nat)
    ensures Judge(c, remaining).Include? <==> Readable(c) && Fits(c, remaining)
    ensures Judge(c, remaining).Include? ==> Judge(c, remaining).note == Note(c.prepared.value, c.content.value)
  {
  }

  /** What goes wrong first with a candidate, if something does; content that is too long is not a failure. */
  function FirstFailure(c: Candidate, remaining: nat): Option<Failure> {
    if c.prepared.Err? then Some(c.prepared.error)
    else if c.size.Err? then Some(c.size.error)
    else if c.size.value <= remaining && c.content.Err? && c.content.error != ResourceLimit then Some(c.content.error)
    else None
  }

  /** A missing note and one that cannot be read are skipped as what they are; every other failure ends the call. */
  lemma JudgesFailuresExactly(c: Candidate, remaining: nat)
    ensures var v, e := Judge(c, remaining), FirstFailure(c, remaining);
      var path := if c.prepared.Ok? then c.prepared.value else c.displayPath;
      && (v == Skip(Skipped(path, NotFound)) <==> e == Some(NoteNotFound))
      && (v == Skip(Skipped(path, Unreadable)) <==> e == Some(Io) || e == Some(InvalidSource) || e == Some(PermissionDenied(true)))
      && (v.Abort? <==> e == Some(PermissionDenied(false)) || e == Some(ResourceLimit) || e == Some(Fatal))
      && (v.Abort? ==> v == Abort(e.value))
      && (v == Skip(Skipped(path, ByteLimit)) <==> e.None? && !(Readable(c) && Fits(c, remaining)))
      && (v.Skip? ==> v.detail.path == path)
  {
    match Judge(c, remaining)
    case Include(_) =>
    case Skip(_) =>
    case Abort(_) =>
  }

  lemma AdvanceAddsAtMostOne(cs: seq<Candidate>, n: nat, maxBytes: nat)
    requires n < |cs| && Inspect(cs, n + 1, maxBytes).Ok?
    ensures Inspect(cs, n, maxBytes).Ok?
    ensures var before, o := Inspect(cs, n, maxBytes).value, Inspect(cs, n + 1, maxBytes).value;
      if Judge(cs[n], Budget(cs, n, maxBytes)).Include? then
        && Taken(cs, n + 1, maxBytes) == Taken(cs, n, maxBytes) + [n]
        && |o.notes| == |before.notes| + 1 && o.notes[..|before.notes|] == before.notes && Shows(cs, n, o.notes[|before.notes|])
        && o.contentBytes == before.contentBytes + |o.notes[|before.notes|].content|
      else
        Taken(cs, n + 1, maxBytes) == Taken(cs, n, maxBytes) && o.notes == before.notes && o.contentBytes == before.contentBytes
  {
    IncludedExactlyWhenItFits(cs[n], Budget(cs, n, maxBytes));
    hide Judge;
  }

  /** The notes are those of the taken candidates, in order. */
  predicate NotesAre(cs: seq<Candidate>, n: nat, notes: seq<Note>, taken: seq<nat>) {
    && n <= |cs| && |notes| == |taken|
    && (forall k :: 0 <= k < |taken| ==> taken[k] < n && Shows(cs, taken[k], notes[k]))
    && Increasing(taken)
  }

  lemma OneNoteMore(cs: seq<Candidate>, n: nat, notes: seq<Note>, taken: seq<nat>, note: Note)
    requires NotesAre(cs, n, notes, taken) && n < |cs| && Shows(cs, n, note)
    ensures NotesAre(cs, n + 1, notes + [note], taken + [n])
    ensures TotalBytes(notes + [note]) == TotalBytes(notes) + |note.content|
  {
    hide Shows;
    assert (notes + [note])[..|notes|] == notes;
  }

  lemma {:induction false} InspectedParts(cs: seq<Candidate>, n: nat, maxBytes: nat)
    requires n <= |cs| && Inspect(cs, n, maxBytes).Ok?
    ensures var o := Inspect(cs, n, maxBytes).value;
      NotesAre(cs, n, o.notes, Taken(cs, n, maxBytes)) && o.contentBytes == TotalBytes(o.notes)
  {
    if n > 0 {
      AdvanceAddsAtMostOne(cs, n - 1, maxBytes);
      InspectedParts(cs, n - 1, maxBytes);
      var before, o := Inspect(cs, n - 1, maxBytes).value, Inspect(cs, n, maxBytes).value;
      var taken := Taken(cs, n - 1, maxBytes);
      hide *;
      if Judge(cs[n - 1], Budget(cs, n - 1, maxBytes)).Include? {
        OneNoteMore(cs, n - 1, before.notes, taken, o.notes[|before.notes|]);
        assert o.notes == before.notes + [o.notes[|before.notes|]];
      } else {
        NotesStay(cs, n - 1, before.notes, taken);
      }
    }
  }

  lemma NotesStay(cs: seq<Candidate>, n: nat, notes: seq<Note>, taken: seq<nat>)
    requires NotesAre(cs, n, notes, taken) && n < |cs|
    ensures NotesAre(cs, n + 1, notes, taken)
  {
    hide Shows;
  }

  lemma {:induction false} TakenExactly(cs: seq<Candidate>, n: nat, maxBytes: nat, i: nat)
    requires i < n <= |cs| && Inspect(cs, n, maxBytes).Ok?
    ensures Inspect(cs, i, maxBytes).Ok?
    ensures i in Taken(cs, n, maxBytes) <==> Readable(cs[i]) && Fits(cs[i], Budget(cs, i, maxBytes))
    ensures i in Taken(cs, n, maxBytes) <==> i !in Missed(cs, n, maxBytes)
  {
    TakenBelow(cs, n - 1, maxBytes);
    if i < n - 1 {
      TakenExactly(cs, n - 1, maxBytes, i);
    } else {
      IncludedExactlyWhenItFits(cs[i], Budget(cs, i, maxBytes));
    }
  }

  lemma {:induction false} TakenBelow(cs: seq<Candidate>, n: nat, maxBytes: nat)
    requires n <= |cs| && Inspect(cs, n, maxBytes).Ok?
    ensures forall i :: i in Taken(cs, n, maxBytes) || i in Missed(cs, n, maxBytes) ==> i < n
    ensures |Taken(cs, n, maxBytes)| + |Missed(cs, n, maxBytes)| == n
    ensures Increasing(Missed(cs, n, maxBytes))
  {
    hide Judge;
    if n > 0 {
      TakenBelow(cs, n - 1, maxBytes);
      var before := Missed(cs, n - 1, maxBytes);
      assert forall j :: 0 <= j < |before| ==> before[j] in before;
    }
  }

  /** `detail` is what the call reports about candidate `i`, which it did not return. */
  predicate Describes(cs: seq<Candidate>, i: nat, maxBytes: nat, detail: Skipped)
    requires i < |cs| && Inspect(cs, i, maxBytes).Ok?
  {
    Judge(cs[i], Budget(cs, i, maxBytes)) == Skip(detail)
  }

  lemma {:induction false} SkippedParts(cs: seq<Candidate>, n: nat, maxBytes: nat)
    requires n <= |cs| && Inspect(cs, n, maxBytes).Ok?
    ensures var o := Inspect(cs, n, maxBytes).value; var missed := Missed(cs, n, maxBytes);
      && o.skippedCount == |missed|
      && |o.skipped| == Min(|missed|, MAX_SKIPPED_DETAILS)
      && forall k :: 0 <= k < |o.skipped| ==>
          missed[k] < n && Inspect(cs, missed[k], maxBytes).Ok? && Describes(cs, missed[k], maxBytes, o.skipped[k])
  {
    if n > 0 {
      SkippedParts(cs, n - 1, maxBytes);
      hide Judge;
    }
  }

  /** `chosen` are the entries of `listed` at the positions `kept`, which are those of its Markdown files. */
  predicate Picks(listed: seq<Candidate>, chosen: seq<Candidate>, kept: seq<nat>) {
    && |kept| == |chosen| && Increasing(kept)
    && (forall k :: 0 <= k < |kept| ==> kept[k] < |listed| && chosen[k] == listed[kept[k]])
    && forall i :: 0 <= i < |listed| ==> (i in kept <==> IsMarkdown(listed[i].displayPath))
  }

  lemma PicksOneMore(listed: seq<Candidate>, chosen: seq<Candidate>, kept: seq<nat>, c: Candidate)
    requires Picks(listed, chosen, kept)
    ensures if IsMarkdown(c.displayPath) then Picks(listed + [c], chosen + [c], kept + [|listed|])
            else Picks(listed + [c], chosen, kept)
  {
    hide IsMarkdown;
    var n := |listed|;
    assert forall k :: 0 <= k < |kept| ==> kept[k] in kept;
    assert n !in kept;
    var all := listed + [c];
    assert all[n] == c && forall i :: 0 <= i < n ==> all[i] == listed[i];
    assert forall i :: i in kept + [n] <==> i in kept || i == n;
  }

  lemma MarkdownStep(front: seq<Candidate>, c: Candidate)
    ensures Markdown(front + [c]) == if IsMarkdown(c.displayPath) then Markdown(front) + [c] else Markdown(front)
  {
    hide IsMarkdown;
    assert (front + [c])[..|front|] == front;
  }

  lemma NothingPicked()
    ensures Picks([], Markdown([]), [])
  {
  }

  /** A directory selects its Markdown files, all of them, in listing order. */
  lemma {:induction false} MarkdownInOrder(listed: seq<Candidate>) returns (kept: seq<nat>)
    ensures Picks(listed, Markdown(listed), kept)
  {
    hide *;
    if listed == [] {
      kept := [];
      NothingPicked();
    } else {
      var front, c := listed[..|listed| - 1], listed[|listed| - 1];
      var before := MarkdownInOrder(front);
      PicksOneMore(front, Markdown(front), before, c);
      MarkdownStep(front, c);
      kept := if IsMarkdown(c.displayPath) then before + [|front|] else before;
      assert listed == front + [c];
    }
  }

  /** The call is refused for its parameters exactly if a limit is zero, or not exactly one selector is given as it should be. */
  lemma RefusedExactlyWhen(p: Params)
    ensures Answer(p) == Err(InvalidParams) <==>
      || p.maxFiles == Some(0) || p.maxBytes == Some(0)
      || p.paths.Some? == p.dir.Some?
      || (p.paths.Some? && (p.recursive || p.glob || p.paths.value == [] || |p.paths.value| > 100))
  {
    hide Inspect, Validation, Close, Markdown;
  }

  /** Nothing is lost or invented: every candidate is a note or a skip, and details are kept for the first hundred skips. */
  lemma EveryCandidateIsAccountedFor(cs: seq<Candidate>, explicit: bool, files: Option<nat>, bytes: Option<nat>)
    requires ReadMany(cs, explicit, files, bytes).Ok?
    ensures var o := ReadMany(cs, explicit, files, bytes).value;
      && |o.notes| + o.skippedCount == |cs|
      && |o.skipped| == Min(o.skippedCount, 100)
      && o.contentBytes == TotalBytes(o.notes) <= ValidatedLimit(bytes, DEFAULT_MAX_BYTES, MAX_BYTES_CAP).value <= MAX_BYTES_CAP
      && |o.notes| <= ValidatedLimit(files, DEFAULT_MAX_FILES, MAX_FILES_CAP).value <= MAX_FILES_CAP
  {
    var maxBytes := ValidatedLimit(bytes, DEFAULT_MAX_BYTES, MAX_BYTES_CAP).value;
    var n := Min(|cs|, ValidatedLimit(files, DEFAULT_MAX_FILES, MAX_FILES_CAP).value);
    InspectedParts(cs, n, maxBytes);
    SkippedParts(cs, n, maxBytes);
    TakenBelow(cs, n, maxBytes);
  }

  /**
   The notes are an in-order subsequence of the inspected candidates: exactly those that are readable and fit what the
   notes before them left of the byte budget.
   */
  lemma ReturnsExactlyWhatFits(cs: seq<Candidate>, explicit: bool, files: Option<nat>, bytes: Option<nat>)
    returns (taken: seq<nat>, n: nat, maxBytes: nat)
    requires ReadMany(cs, explicit, files, bytes).Ok?
    ensures maxBytes == if bytes.None? then 65536 else Min(bytes.value, 262144)
    ensures n == Min(|cs|, if files.None? then 20 else Min(files.value, 100))
    ensures var o := ReadMany(cs, explicit, files, bytes).value;
      && |o.notes| == |taken| && Increasing(taken)
      && (forall k :: 0 <= k < |taken| ==> taken[k] < n && Shows(cs, taken[k], o.notes[k]))
      && forall i :: 0 <= i < n ==>
          Inspect(cs, i, maxBytes).Ok? && (i in taken <==> Readable(cs[i]) && Fits(cs[i], Budget(cs, i, maxBytes)))
  {
    maxBytes := ValidatedLimit(bytes, DEFAULT_MAX_BYTES, MAX_BYTES_CAP).value;
    n := Min(|cs|, ValidatedLimit(files, DEFAULT_MAX_FILES, MAX_FILES_CAP).value);
    taken := Taken(cs, n, maxBytes);
    InspectedParts(cs, n, maxBytes);
    forall i | 0 <= i < n
      ensures Inspect(cs, i, maxBytes).Ok?
      ensures i in taken <==> Readable(cs[i]) && Fits(cs[i], Budget(cs, i, maxBytes))
    {
      TakenExactly(cs, n, maxBytes, i);
    }
  }

  function From(n: nat, m: nat): (r: seq<nat>)
    requires n <= m
    ensures |r| == m - n && forall i :: 0 <= i < |r| ==> r[i] == n + i
  {
    if n == m then [] else From(n, m - 1) + [m - 1]
  }

  /** What the call reports about candidate `i`: past the file limit it was not even looked at. */
  predicate Reports(cs: seq<Candidate>, i: nat, n: nat, maxBytes: nat, detail: Skipped) {
    && i < |cs|
    && if i < n then Inspect(cs, i, maxBytes).Ok? && Describes(cs, i, maxBytes, detail)
       else detail == Skipped(cs[i].displayPath, FileLimit)
  }

  lemma CloseParts(o: Output, cs: seq<Candidate>, n: nat)
    requires n <= |cs| && |o.skipped| <= MAX_SKIPPED_DETAILS
    ensures var all := Close(o, cs, n).skipped;
      && |o.skipped| <= |all| == Min(|o.skipped| + (|cs| - n), MAX_SKIPPED_DETAILS)
      && (forall k :: 0 <= k < |o.skipped| ==> all[k] == o.skipped[k])
      && forall k :: |o.skipped| <= k < |all| ==> all[k] == Skipped(cs[n + (k - |o.skipped|)].displayPath, FileLimit)
  {
  }

  lemma IncreasingJoins(inner: seq<nat>, n: nat, m: nat)
    requires n <= m && Increasing(inner) && forall i :: i in inner ==> i < n
    ensures Increasing(inner + From(n, m)) && |inner + From(n, m)| == |inner| + (m - n)
  {
    assert forall j :: 0 <= j < |inner| ==> inner[j] in inner;
    hide From;
  }

  /** The details are those of the first skipped candidates, in order, each with its own reason. */
  lemma SkipsAreReportedInOrder(cs: seq<Candidate>, explicit: bool, files: Option<nat>, bytes: Option<nat>)
    returns (missed: seq<nat>, n: nat, maxBytes: nat)
    requires ReadMany(cs, explicit, files, bytes).Ok?
    ensures maxBytes == if bytes.None? then 65536 else Min(bytes.value, 262144)
    ensures n == Min(|cs|, if files.None? then 20 else Min(files.value, 100))
    ensures var o := ReadMany(cs, explicit, files, bytes).value;
      && |missed| == o.skippedCount && Increasing(missed)
      && |o.skipped| <= |missed|
      && forall k :: 0 <= k < |o.skipped| ==> Reports(cs, missed[k], n, maxBytes, o.skipped[k])
  {
    maxBytes := if bytes.None? then 65536 else Min(bytes.value, 262144);
    n := Min(|cs|, if files.None? then 20 else Min(files.value, 100));
    ReadManyShape(cs, explicit, files, bytes);
    SkippedParts(cs, n, maxBytes);
    TakenBelow(cs, n, maxBytes);
    var inner := Missed(cs, n, maxBytes);
    missed := inner + From(n, |cs|);
    IncreasingJoins(inner, n, |cs|);
    var before := Inspect(cs, n, maxBytes).value;
    CloseParts(before, cs, n);
    CloseCounts(before, cs, n);
    hide *;
    DetailsAreReported(cs, n, maxBytes, inner, before.skipped, Close(before, cs, n).skipped);
  }

  lemma CloseCounts(o: Output, cs: seq<Candidate>, n: nat)
    requires n <= |cs|
    ensures Close(o, cs, n).skippedCount == o.skippedCount + (|cs| - n)
  {
  }

  /** A selection that is answered: its limits, and the state its loop ends in. */
  lemma ReadManyShape(cs: seq<Candidate>, explicit: bool, files: Option<nat>, bytes: Option<nat>)
    requires ReadMany(cs, explicit, files, bytes).Ok?
    ensures var n, maxBytes := Min(|cs|, if files.None? then 20 else Min(files.value, 100)), if bytes.None? then 65536 else Min(bytes.value, 262144);
      && n <= |cs| && Inspect(cs, n, maxBytes).Ok?
      && ReadMany(cs, explicit, files, bytes).value == Close(Inspect(cs, n, maxBytes).value, cs, n)
  {
    hide Inspect, Close, Validation;
  }

  lemma {:induction false} DetailsAreReported(cs: seq<Candidate>, n: nat, maxBytes: nat, inner: seq<nat>, details: seq<Skipped>, all: seq<Skipped>)
    requires n <= |cs| && |details| == Min(|inner|, MAX_SKIPPED_DETAILS)
    requires forall k :: 0 <= k < |details| ==>
      inner[k] < n && Inspect(cs, inner[k], maxBytes).Ok? && Describes(cs, inner[k], maxBytes, details[k])
    requires |details| <= |all| == Min(|details| + (|cs| - n), MAX_SKIPPED_DETAILS)
    requires forall k :: 0 <= k < |details| ==> all[k] == details[k]
    requires forall k :: |details| <= k < |all| ==> all[k] == Skipped(cs[n + (k - |details|)].displayPath, FileLimit)
    ensures |all| <= |inner| + (|cs| - n) == |inner + From(n, |cs|)|
    ensures forall k :: 0 <= k < |all| ==> Reports(cs, (inner + From(n, |cs|))[k], n, maxBytes, all[k])
  {
    hide From, Describes, Inspect, Reports;
    forall k | 0 <= k < |all| ensures Reports(cs, (inner + From(n, |cs|))[k], n, maxBytes, all[k]) {
      if k < |details| {
        ReportsInspected(cs, n, maxBytes, inner[k], all[k]);
      } else {
        ReportsUnread(cs, n, maxBytes, k - |inner|, all[k]);
      }
    }
  }

  lemma ReportsInspected(cs: seq<Candidate>, n: nat, maxBytes: nat, i: nat, detail: Skipped)
    requires i < n <= |cs| && Inspect(cs, i, maxBytes).Ok? && Describes(cs, i, maxBytes, detail)
    ensures Reports(cs, i, n, maxBytes, detail)
  {
  }

  lemma {:induction false} ReportsUnread(cs: seq<Candidate>, n: nat, maxBytes: nat, k: nat, detail: Skipped)
    requires n + k < |cs| && detail == Skipped(cs[n + k].displayPath, FileLimit)
    ensures From(n, |cs|)[k] == n + k && Reports(cs, n + k, n, maxBytes, detail)
  {
  }

  /** The budget a candidate meets is what the notes before it left. */
  lemma BudgetIsWhatIsLeft(cs: seq<Candidate>, n: nat, maxBytes: nat)
    requires n <= |cs| && Inspect(cs, n, maxBytes).Ok?
    ensures Budget(cs, n, maxBytes) + TotalBytes(Inspect(cs, n, maxBytes).value.notes) == maxBytes
  {
    InspectedParts(cs, n, maxBytes);
  }

  /** The content fitting is enough exactly if the size seen beforehand fits too, as it does whenever it is current. */
  lemma FittingContentIsIncludedIff(c: Candidate, remaining: nat)
    requires Readable(c) && |c.content.value| <= remaining
    ensures Judge(c, remaining).Include? <==> c.size.value <= remaining
    ensures c.size.value == |c.content.value| ==> Judge(c, remaining).Include?
  {
  }

  /** A note that shrank after its size was taken is skipped although its content fits. */
  lemma StaleSizeSkips()
    ensures var c := Candidate("a.md", None, Ok("a.md"), Ok(2), Ok([65]), true);
      && Readable(c) && |c.content.value| <= 1
      && Judge(c, 1) == Skip(Skipped("a.md", ByteLimit))
  {
  }

  /** Candidate `i` is reached and has a failure that is not its own. */
  predicate Aborts(cs: seq<Candidate>, i: nat, maxBytes: nat)
    requires i < |cs|
  {
    Inspect(cs, i, maxBytes).Ok? && Judge(cs[i], Budget(cs, i, maxBytes)).Abort?
  }

  /** The call fails on a file exactly if an inspected candidate aborts it. */
  lemma {:induction false} FailsExactlyWhenAborted(cs: seq<Candidate>, n: nat, maxBytes: nat)
    requires n <= |cs|
    ensures Inspect(cs, n, maxBytes).Err? <==> exists i :: 0 <= i < n && Aborts(cs, i, maxBytes)
  {
    if n > 0 {
      FailsExactlyWhenAborted(cs, n - 1, maxBytes);
      assert Inspect(cs, n - 1, maxBytes).Ok? ==> (Inspect(cs, n, maxBytes).Err? <==> Aborts(cs, n - 1, maxBytes));
      assert Aborts(cs, n - 1, maxBytes) ==> Inspect(cs, n - 1, maxBytes).Ok?;
      hide Aborts, Judge, Inspect;
    }
  }

  /** What a call that fails on a file fails with: the failure of the first candidate that aborts it. */
  lemma {:induction false} FailsWithTheFirstAbort(cs: seq<Candidate>, n: nat, maxBytes: nat)
    requires n <= |cs| && Inspect(cs, n, maxBytes).Err?
    ensures exists i :: 0 <= i < n && Aborts(cs, i, maxBytes)
              && Judge(cs[i], Budget(cs, i, maxBytes)) == Abort(Inspect(cs, n, maxBytes).error)
  {
    if Inspect(cs, n - 1, maxBytes).Err? {
      FailsWithTheFirstAbort(cs, n - 1, maxBytes);
    } else {
      assert Aborts(cs, n - 1, maxBytes);
    }
  }

  /** Among explicit paths the first that does not validate decides. */
  lemma {:induction false} ValidationIsTheFirst(cs: seq<Candidate>, explicit: bool, e: Failure)
    ensures Validation(cs, explicit) == Some(e) <==>
      explicit && exists i :: 0 <= i < |cs| && cs[i].validation == Some(e) && forall j :: 0 <= j < i ==> cs[j].validation.None?
  {
    if explicit && cs != [] {
      ValidationIsTheFirst(cs[1..], explicit, e);
      if i :| 0 <= i < |cs| && cs[i].validation == Some(e) && forall j :: 0 <= j < i ==> cs[j].validation.None? {
        if i > 0 {
          assert cs[1..][i - 1].validation == Some(e);
          assert forall j :: 0 <= j < i - 1 ==> cs[1..][j] == cs[j + 1];
        }
      }
      if cs[0].validation.None? && Validation(cs[1..], explicit) == Some(e) {
        var i :| 0 <= i < |cs| - 1 && cs[1..][i].validation == Some(e) && forall j :: 0 <= j < i ==> cs[1..][j].validation.None?;
        assert cs[i + 1].validation == Some(e);
        forall j | 0 <= j < i + 1 ensures cs[j].validation.None? {
          assert j > 0 ==> cs[j] == cs[1..][j - 1];
        }
      }
    }
  }

  /** A selection is answered exactly if the limits are good, every explicit path validates, and no inspected file aborts the call. */
  lemma AnswersExactlyWhen(cs: seq<Candidate>, explicit: bool, files: Option<nat>, bytes: Option<nat>)
    ensures ReadMany(cs, explicit, files, bytes).Ok? <==>
      && files != Some(0) && bytes != Some(0)
      && (explicit ==> 0 < |cs| <= 100 && forall i :: 0 <= i < |cs| ==> cs[i].validation.None?)
      && var n, maxBytes := Min(|cs|, if files.None? then 20 else Min(files.value, 100)), if bytes.None? then 65536 else Min(bytes.value, 262144);
         forall i :: 0 <= i < n ==> !Aborts(cs, i, maxBytes)
  {
    var n := Min(|cs|, if files.None? then 20 else Min(files.value, 100));
    var maxBytes := if bytes.None? then 65536 else Min(bytes.value, 262144);
    FailsExactlyWhenAborted(cs, n, maxBytes);
    AllValidate(cs, explicit);
    hide Inspect, Validation, Aborts, Close;
  }

  lemma {:induction false} AllValidate(cs: seq<Candidate>, explicit: bool)
    ensures Validation(cs, explicit).None? <==> !explicit || forall i :: 0 <= i < |cs| ==> cs[i].validation.None?
  {
    if explicit && cs != [] {
      AllValidate(cs[1..], explicit);
      assert (forall i :: 0 <= i < |cs| ==> cs[i].validation.None?) <==>
        cs[0].validation.None? && forall i :: 0 <= i < |cs| - 1 ==> cs[1..][i].validation.None? by {
        if cs[0].validation.None? && forall i :: 0 <= i < |cs| - 1 ==> cs[1..][i].validation.None? {
          forall i | 0 <= i < |cs| ensures cs[i].validation.None? {
            assert i > 0 ==> cs[i] == cs[1..][i - 1];
          }
        }
      }
    }
  }

  predicate IsSeparator(c: char) {
    c == '/' || c == '\\'
  }

  lemma FileNameStep(path: string)
    requires path != ""
    ensures var last := path[|path| - 1];
      FileName(path) == if IsSeparator(last) then "" else FileName(path[..|path| - 1]) + [last]
  {
  }

  /** The file name is what follows the last separator. */
  lemma {:induction false} FileNameIsLast(path: string)
    ensures var name := FileName(path); var at := |path| - |name|;
      && |name| <= |path| && path[at..] == name && (at > 0 ==> IsSeparator(path[at - 1]))
      && forall c :: c in name ==> !IsSeparator(c)
  {
    if path != "" {
      FileNameStep(path);
    }
    if path != "" && !IsSeparator(path[|path| - 1]) {
      hide FileName;
      var front := path[..|path| - 1];
      FileNameIsLast(front);
      var at := |front| - |FileName(front)|;
      assert path[at..] == front[at..] + [path[|path| - 1]];
      assert at > 0 ==> path[at - 1] == front[at - 1];
    }
  }

  lemma {:induction false} FileNameOf(dir: string, name: string)
    requires (dir == "" || IsSeparator(dir[|dir| - 1])) && forall c :: c in name ==> !IsSeparator(c)
    ensures FileName(dir + name) == name
    decreases |name|
  {
    if name == "" {
      assert dir + name == dir;
    } else {
      var path, front := dir + name, name[..|name| - 1];
      FileNameOf(dir, front);
      FileNameStep(path);
      hide FileName;
      assert path[..|path| - 1] == dir + front && path[|path| - 1] == name[|name| - 1];
      assert name[|name| - 1] in name;
      assert front + [name[|name| - 1]] == name;
    }
  }

  /** A directory part, a stem that is not empty, and `.md` in any case. */
  predicate MarkdownParts(path: string, dir: string, stem: string, ext: string) {
    && path == dir + (stem + ext) && stem != "" && ext in [".md", ".mD", ".Md", ".MD"]
    && (dir == "" || IsSeparator(dir[|dir| - 1])) && forall c :: c in stem ==> !IsSeparator(c)
  }

  lemma MarkdownExtension(ext: string)
    requires |ext| == 3 && ext[0] == '.' && ext[1] in "mM" && ext[2] in "dD"
    ensures ext in [".md", ".mD", ".Md", ".MD"]
  {
    assert ext == [ext[0], ext[1], ext[2]];
  }

  lemma MarkdownSplits(path: string) returns (dir: string, stem: string, ext: string)
    requires IsMarkdown(path)
    ensures MarkdownParts(path, dir, stem, ext)
  {
    var name := FileName(path);
    FileNameIsLast(path);
    hide FileName;
    var k := |name| - 3;
    dir, stem, ext := path[..|path| - |name|], name[..k], name[k..];
    assert ext == [name[k], name[k + 1], name[k + 2]];
    MarkdownExtension(ext);
    assert name == stem + ext && path == dir + name;
    assert forall c :: c in stem ==> c in name;
  }

  lemma MarkdownJoins(path: string, dir: string, stem: string, ext: string)
    requires MarkdownParts(path, dir, stem, ext)
    ensures IsMarkdown(path)
  {
    var name := stem + ext;
    forall c | c in name ensures !IsSeparator(c) {
      assert c in stem || c in ext;
    }
    FileNameOf(dir, name);
    hide FileName;
    assert name[|name| - 3] == ext[0] && name[|name| - 2] == ext[1] && name[|name| - 1] == ext[2];
  }

  /** Which files of a directory are Markdown: exactly those of this form. */
  lemma MarkdownMeans(path: string)
    ensures IsMarkdown(path) <==> exists dir, stem, ext :: MarkdownParts(path, dir, stem, ext)
  {
    hide IsMarkdown, MarkdownParts;
    if IsMarkdown(path) {
      var dir, stem, ext := MarkdownSplits(path);
    }
    if dir, stem, ext :| MarkdownParts(path, dir, stem, ext) {
      MarkdownJoins(path, dir, stem, ext);
    }
  }
}
