/** Custom-route execution: transaction, buffered response and cache drop (`customHandler`, route.go). */
module Route {
  import opened Hosts
  import opened RequestCtx

  datatype Route = Route(requireRole: Option<string>, byteServing: bool, limited: bool)

  datatype Request = Request(tenantValid: bool, admitted: bool, role: Option<string>, verb: string, body: Body)

  /** What the handler does: its calls, then a panic, nil, the result of one of them, or another error. */
  datatype Ending = Panics | Nil | ReturnsResult(k: nat) | Fails(fault: Fault)

  datatype Handler = Handler(calls: seq<Call>, ending: Ending)

  datatype Begin = BeginOk | BeginUnavailable | BeginFailed

  datatype Serving = Streams | NoStore | Missing | Broken

  datatype Io = Io(begin: Begin, searchPathOk: bool, commitOk: bool, hasCache: bool, serving: Serving)

  datatype Payload = Nothing | Text(text: string) | FileBytes(file: string)

  datatype Event =
    | Begun
    | Returned(err: Option<Err>)
    | Committed
    | CommitFailed
    | RolledBack
    | CacheDropped
    | Responded(status: nat, retryAfter: bool, payload: Payload)

  predicate Refused(rt: Route, rq: Request) {
    !rq.tenantValid || (rt.limited && !rq.admitted) || (rt.requireRole.Some? && rq.role != rt.requireRole)
  }

  function Refusal(rt: Route, rq: Request): Event {
    if !rq.tenantValid then Responded(400, false, Text("invalid tenant"))
    else if rt.limited && !rq.admitted then Responded(429, true, Text("too many requests"))
    else Responded(403, false, Text("forbidden"))
  }

  const Internal := Responded(500, false, Text("internal error"))

  /** The error the handler returned; None for nil. */
  function ErrOf(rt: Route, h: Handler): Option<Err> {
    match h.ending
    case Panics => None
    case Nil => None
    case ReturnsResult(k) =>
      if k < |h.calls| then ResultOf(PerformAll(Empty, rt.byteServing, h.calls[..k]), rt.byteServing, h.calls[k])
          else None
    case Fails(fault) => Some(Plain(fault))
  }

  /** The response `flush` starts. */
  function Flushed(b: Buffer, serving: Serving): Event {
    if b.reply.Some? then Responded(b.reply.value.status, b.retryAfter, Text(b.reply.value.body))
    else if b.file.None? then Responded(204, false, Nothing)
    else
      match serving
      case Streams => Responded(200, false, FileBytes(b.file.value))
      case NoStore => Internal
      case Missing => Responded(404, false, Text("not found"))
      case Broken => Responded(500, false, Text("download failed"))
  }

  /** `writeHandlerError` for everything `Ctx.Error` did not make. */
  function FaultResponse(f: Fault): Event {
    match f
    case Validation(fields) => Responded(422, false, Text(fields))
    case Forbidden => Responded(403, false, Text("forbidden"))
    case BodyTooLarge => Responded(413, false, Text("request body too large"))
    case InvalidTransition(msg) => Responded(422, false, Text(msg))
    case UpdateConflict => Responded(409, false, Text("the resource changed during the update; retry"))
    case UniqueViolation(msg) => Responded(409, false, Text(msg))
    case ForeignKeyConflict(msg) => Responded(409, false, Text(msg))
    case RangeConflict(detail) => Responded(409, false, Text(detail))
    case FileNotFound => Responded(404, false, Text("not found"))
    case Unavailable => Responded(503, true, Text("service unavailable"))
    case Unknown => Internal
  }

  predicate Writes(verb: string) {
    verb != "GET" && verb != "HEAD"
  }

  /** What one request does, in order; the deferred rollback comes last. */
  function Trace(rt: Route, rq: Request, io: Io, h: Handler): seq<Event> {
    if Refused(rt, rq) then [Refusal(rt, rq)]
    else if io.begin == BeginUnavailable then [Responded(503, true, Text("service unavailable"))]
    else if io.begin == BeginFailed then [Internal]
    else if !io.searchPathOk then [Begun, Internal, RolledBack]
    else if h.ending == Panics then [Begun, RolledBack]
    else
      var b, err := PerformAll(Empty, rt.byteServing, h.calls), ErrOf(rt, h);
      if err == Some(Handled) then [Begun, Returned(err), Flushed(b, io.serving), RolledBack]
      else if err.Some? then [Begun, Returned(err), FaultResponse(err.value.fault), RolledBack]
      else if !io.commitOk then [Begun, Returned(err), CommitFailed, Internal, RolledBack]
      else if Writes(rq.verb) && io.hasCache
          then [Begun, Returned(err), Committed, CacheDropped, Flushed(b, io.serving)]
      else [Begun, Returned(err), Committed, Flushed(b, io.serving)]
  }

  /** The request handler over the mutable Ctx does exactly that. */
  method CustomHandler(rt: Route, rq: Request, io: Io, h: Handler) returns (trace: seq<Event>)
    ensures trace == Trace(rt, rq, io, h)
  {
    if !rq.tenantValid {
      return [Responded(400, false, Text("invalid tenant"))];
    }
    if rt.limited && !rq.admitted {
      return [Responded(429, true, Text("too many requests"))];
    }
    if rt.requireRole.Some? && (rq.role.None? || rq.role.value != rt.requireRole.value) {
      return [Responded(403, false, Text("forbidden"))];
    }
    match io.begin {
      case BeginUnavailable => return [Responded(503, true, Text("service unavailable"))];
      case BeginFailed => return [Internal];
      case BeginOk =>
    }
    trace := [Begun];
    var committed, rest := InTransaction(rt, rq, io, h);
    trace := trace + rest;
    if !committed {
      trace := trace + [RolledBack];
    }
  }

  /** From the search path to the last response, before the deferred rollback. */
  method InTransaction(rt: Route, rq: Request, io: Io, h: Handler) returns (committed: bool, trace: seq<Event>)
    requires !Refused(rt, rq) && io.begin == BeginOk
    ensures [Begun] + trace + (if committed then [] else [RolledBack]) == Trace(rt, rq, io, h)
  {
    committed, trace := false, [];
    if !io.searchPathOk {
      trace := [Internal];
      return;
    }
    var rc := new RequestCtx(rt.byteServing, rq.body);
    var herr := RunHandler(rc, h);
    if h.ending == Panics {
      return;
    }
    trace := [Returned(herr)];
    if herr.Some? {
      var response := if herr.value == Handled then Flushed(rc.Buffered(), io.serving)
          else FaultResponse(herr.value.fault);
      trace := trace + [response];
      return;
    }
    if !io.commitOk {
      trace := trace + [CommitFailed, Internal];
      return;
    }
    committed := true;
    trace := trace + [Committed];
    if Writes(rq.verb) && io.hasCache {
      trace := trace + [CacheDropped];
    }
    trace := trace + [Flushed(rc.Buffered(), io.serving)];
  }

  /** The handler's calls, one after the other. */
  method RunHandler(rc: RequestCtx, h: Handler) returns (err: Option<Err>)
    requires rc.Valid() && rc.Buffered() == Empty
    modifies rc
    ensures rc.Buffered() == PerformAll(Empty, rc.byteServing, h.calls)
    ensures err == match h.ending
                   case Panics => None
                   case Nil => None
                   case ReturnsResult(k) =>
                     if k < |h.calls| then ResultOf(PerformAll(Empty, rc.byteServing, h.calls[..k]), rc.byteServing,
                         h.calls[k]) else None
                   case Fails(fault) => Some(Plain(fault))
  {
    err := if h.ending.Fails? then Some(Plain(h.ending.fault)) else None;
    for i := 0 to |h.calls|
      invariant rc.Valid() && rc.Buffered() == PerformAll(Empty, rc.byteServing, h.calls[..i])
      invariant h.ending.ReturnsResult? ==>
                  err == if h.ending.k < i
                      then ResultOf(PerformAll(Empty, rc.byteServing, h.calls[..h.ending.k]), rc.byteServing,
                      h.calls[h.ending.k]) else None
      invariant h.ending.Fails? ==> err == Some(Plain(h.ending.fault))
      invariant h.ending.Nil? || h.ending.Panics? ==> err == None
    {
      var r: Option<Err>;
      match h.calls[i] {
        case JsonCall(status, encoded) => r := rc.Json(status, encoded);
        case ErrorCall(status, msg, unavailable) => r := rc.Error(status, msg, unavailable);
        case ServeFileCall(parsed) => r := rc.ServeFile(parsed);
      }
      if h.ending == ReturnsResult(i) {
        err := r;
      }
      assert h.calls[..i + 1][..i] == h.calls[..i];
    }
    assert h.calls[..|h.calls|] == h.calls;
  }

  // The discipline.

  ghost predicate Once(trace: seq<Event>, p: Event -> bool) {
    exists i :: 0 <= i < |trace| && p(trace[i]) && forall j :: 0 <= j < |trace| && j != i ==> !p(trace[j])
  }

  ghost predicate Never(trace: seq<Event>, p: Event -> bool) {
    forall i :: 0 <= i < |trace| ==> !p(trace[i])
  }

  /** Every `q` has a `p` before it. */
  ghost predicate Precedes(trace: seq<Event>, p: Event -> bool, q: Event -> bool) {
    forall i :: 0 <= i < |trace| && q(trace[i]) ==> exists j :: 0 <= j < i && p(trace[j])
  }

  predicate IsBegun(e: Event) { e.Begun? }
  predicate IsCommitted(e: Event) { e.Committed? }
  predicate IsCommitTry(e: Event) { e.Committed? || e.CommitFailed? }
  predicate IsRolledBack(e: Event) { e.RolledBack? }
  predicate IsCacheDropped(e: Event) { e.CacheDropped? }
  predicate IsResponse(e: Event) { e.Responded? }
  predicate IsStream(e: Event) { e.Responded? && e.payload.FileBytes? }
  predicate IsNilReturn(e: Event) { e == Returned(None) }
  predicate EndsTransaction(e: Event) { e.Committed? || e.RolledBack? }

  /** The handler ran to its end and returned nil. */
  predicate ReturnedNil(rt: Route, rq: Request, io: Io, h: Handler) {
    !Refused(rt, rq) && io.begin == BeginOk && io.searchPathOk && h.ending != Panics && ErrOf(rt, h) == None
  }

  /** An error made by `Ctx.Error` left a reply behind, so flushing it never streams a file. */
  lemma HandledErrorIsBuffered(rt: Route, h: Handler)
    requires ErrOf(rt, h) == Some(Handled)
    ensures PerformAll(Empty, rt.byteServing, h.calls).reply.Some?
  {
    ReplyIff(rt.byteServing, h.calls);
    assert ReplyOf(h.calls[h.ending.k]).Some?;
  }

  /** The seven ways a request can go. */
  datatype Shape = Answered | Unprepared | Panicked | Failed | CommitLost | Wrote | Looked

  ghost predicate Takes(t: seq<Event>, shape: Shape) {
    match shape
    case Answered => |t| == 1 && IsResponse(t[0])
    case Unprepared => |t| == 3 && IsBegun(t[0]) && IsResponse(t[1]) && IsRolledBack(t[2])
    case Panicked => |t| == 2 && IsBegun(t[0]) && IsRolledBack(t[1])
    case Failed => |t| == 4 && IsBegun(t[0]) && t[1].Returned? && t[1].err.Some? && IsResponse(t[2])
        && IsRolledBack(t[3])
    case CommitLost =>
      |t| == 5 && IsBegun(t[0]) && IsNilReturn(t[1]) && t[2].CommitFailed? && IsResponse(t[3]) && IsRolledBack(t[4])
    case Wrote =>
      |t| == 5 && IsBegun(t[0]) && IsNilReturn(t[1]) && IsCommitted(t[2]) && IsCacheDropped(t[3]) && IsResponse(t[4])
    case Looked => |t| == 4 && IsBegun(t[0]) && IsNilReturn(t[1]) && IsCommitted(t[2]) && IsResponse(t[3])
  }

  function ShapeOf(rt: Route, rq: Request, io: Io, h: Handler): Shape {
    if Refused(rt, rq) || io.begin != BeginOk then Answered
    else if !io.searchPathOk then Unprepared
    else if h.ending == Panics then Panicked
    else if ErrOf(rt, h).Some? then Failed
    else if !io.commitOk then CommitLost
    else if Writes(rq.verb) && io.hasCache then Wrote
    else Looked
  }

  lemma TraceTakesShape(rt: Route, rq: Request, io: Io, h: Handler)
    ensures Takes(Trace(rt, rq, io, h), ShapeOf(rt, rq, io, h))
  {
  }

  lemma OnceAt(t: seq<Event>, i: nat, p: Event -> bool)
    requires i < |t| && p(t[i]) && forall j :: 0 <= j < |t| && j != i ==> !p(t[j])
    ensures Once(t, p)
  {
  }

  lemma ShapeCommits(t: seq<Event>, shape: Shape)
    requires Takes(t, shape)
    ensures shape in {CommitLost, Wrote, Looked} ==> Once(t, IsCommitTry) && Precedes(t, IsNilReturn, IsCommitTry)
    ensures shape !in {CommitLost, Wrote, Looked} ==> Never(t, IsCommitTry)
    ensures shape in {Wrote, Looked} <==> Once(t, IsCommitted)
    ensures shape !in {Wrote, Looked} <==> Never(t, IsCommitted)
  {
    if shape in {CommitLost, Wrote, Looked} {
      assert IsNilReturn(t[1]);
      OnceAt(t, 2, IsCommitTry);
    }
    if shape in {Wrote, Looked} {
      OnceAt(t, 2, IsCommitted);
    }
  }

  lemma ShapeEnds(t: seq<Event>, shape: Shape)
    requires Takes(t, shape)
    ensures shape == Answered ==> Never(t, IsBegun) && Never(t, EndsTransaction)
    ensures shape != Answered ==> Once(t, IsBegun) && Once(t, EndsTransaction) && Precedes(t, IsBegun, EndsTransaction)
    ensures shape in {Unprepared, Panicked, Failed, CommitLost} ==> Once(t, IsRolledBack) && IsRolledBack(t[|t| - 1])
  {
    if shape != Answered {
      OnceAt(t, 0, IsBegun);
      OnceAt(t, if shape in {Wrote, Looked} then 2 else |t| - 1, EndsTransaction);
    }
    if shape in {Unprepared, Panicked, Failed, CommitLost} {
      OnceAt(t, |t| - 1, IsRolledBack);
    }
  }

  lemma ShapeResponds(t: seq<Event>, shape: Shape)
    requires Takes(t, shape)
    ensures shape == Panicked ==> Never(t, IsResponse)
    ensures shape != Panicked ==> Once(t, IsResponse)
    ensures shape == Wrote ==> Once(t, IsCacheDropped)
    ensures shape == Wrote ==> Precedes(t, IsCommitted, IsCacheDropped) && Precedes(t, IsCacheDropped, IsResponse)
    ensures shape != Wrote ==> Never(t, IsCacheDropped)
  {
    if shape in {Answered, Wrote, Looked} {
      OnceAt(t, |t| - 1, IsResponse);
    } else if shape != Panicked {
      OnceAt(t, |t| - 2, IsResponse);
    }
    if shape == Wrote {
      OnceAt(t, 3, IsCacheDropped);
    }
  }

  /** A commit is tried exactly when the handler returned nil, after it returned. */
  lemma CommitIffHandlerReturnedNil(rt: Route, rq: Request, io: Io, h: Handler)
    ensures var t := Trace(rt, rq, io, h);
            && (ReturnedNil(rt, rq, io, h) ==> Once(t, IsCommitTry) && Precedes(t, IsNilReturn, IsCommitTry))
            && (!ReturnedNil(rt, rq, io, h) ==> Never(t, IsCommitTry))
            && (io.commitOk && ReturnedNil(rt, rq, io, h) <==> Once(t, IsCommitted))
  {
    TraceTakesShape(rt, rq, io, h);
    ShapeCommits(Trace(rt, rq, io, h), ShapeOf(rt, rq, io, h));
  }

  /** Every path after a successful begin ends in one commit or one rollback, never both; a panic too. */
  lemma EveryTransactionEnds(rt: Route, rq: Request, io: Io, h: Handler)
    ensures var t := Trace(rt, rq, io, h);
            && (Once(t, IsBegun) || Never(t, IsBegun))
            && (Once(t, IsBegun) <==> !Refused(rt, rq) && io.begin == BeginOk)
            && (Once(t, IsBegun) ==> Once(t, EndsTransaction) && Precedes(t, IsBegun, EndsTransaction))
            && (Never(t, IsBegun) ==> Never(t, EndsTransaction))
            && (Once(t, IsBegun) && Never(t, IsCommitted) ==> Once(t, IsRolledBack) && IsRolledBack(t[|t| - 1]))
  {
    TraceTakesShape(rt, rq, io, h);
    ShapeEnds(Trace(rt, rq, io, h), ShapeOf(rt, rq, io, h));
    ShapeCommits(Trace(rt, rq, io, h), ShapeOf(rt, rq, io, h));
  }

  /** One response on every path but a panic, which leaves none. */
  lemma ExactlyOneResponse(rt: Route, rq: Request, io: Io, h: Handler)
    ensures var t := Trace(rt, rq, io, h);
            var panicked := !Refused(rt, rq) && io.begin == BeginOk && io.searchPathOk && h.ending == Panics;
            (panicked ==> Never(t, IsResponse)) && (!panicked ==> Once(t, IsResponse))
  {
    TraceTakesShape(rt, rq, io, h);
    ShapeResponds(Trace(rt, rq, io, h), ShapeOf(rt, rq, io, h));
  }

  /** File bytes go out only after the commit, with no reply buffered, and they are the registered file. */
  lemma StreamsOnlyAfterCommit(rt: Route, rq: Request, io: Io, h: Handler)
    ensures var t, b := Trace(rt, rq, io, h), PerformAll(Empty, rt.byteServing, h.calls);
            && Precedes(t, IsCommitted, IsStream)
            && (!Never(t, IsStream) ==>
                  && b.reply.None? && b.file.Some? && rt.byteServing
                  && exists k: nat :: Registers(rt.byteServing, h.calls, k)
                      && t[|t| - 1] == Responded(200, false, FileBytes(h.calls[k].parsed.value)))
  {
    var t, b := Trace(rt, rq, io, h), PerformAll(Empty, rt.byteServing, h.calls);
    if ErrOf(rt, h) == Some(Handled) {
      HandledErrorIsBuffered(rt, h);
    }
    if !Never(t, IsStream) {
      assert t[2] == Committed;
      FirstFileWins(rt.byteServing, h.calls);
    }
  }

  /** The cache is dropped exactly on a committed write, before its response. */
  lemma CacheDropIffCommittedWrite(rt: Route, rq: Request, io: Io, h: Handler)
    ensures var t := Trace(rt, rq, io, h);
            var writes := rq.verb != "GET" && rq.verb != "HEAD";
            var drops := ReturnedNil(rt, rq, io, h) && io.commitOk && writes && io.hasCache;
            && (drops ==> Once(t, IsCacheDropped))
            && (drops ==> Precedes(t, IsCommitted, IsCacheDropped) && Precedes(t, IsCacheDropped, IsResponse))
            && (!drops ==> Never(t, IsCacheDropped))
  {
    TraceTakesShape(rt, rq, io, h);
    ShapeResponds(Trace(rt, rq, io, h), ShapeOf(rt, rq, io, h));
  }

  /** A handler that drops the error of `Ctx.Error` and returns nil commits, and still answers that error. */
  lemma DroppedErrorStillCommits(rt: Route, rq: Request, io: Io, h: Handler, k: nat)
    requires !Refused(rt, rq) && io.begin == BeginOk && io.searchPathOk && io.commitOk && h.ending == Nil
    requires k < |h.calls| && h.calls[k].ErrorCall?
    requires forall j :: k < j < |h.calls| ==> ReplyOf(h.calls[j]).None?
    ensures var t := Trace(rt, rq, io, h);
            && Once(t, IsCommitted)
            && t[|t| - 1].Responded? && Some(Reply(t[|t| - 1].status, h.calls[k].msg)) == ReplyOf(h.calls[k])
  {
    LastReplyWins(rt.byteServing, h.calls, k);
    CommitIffHandlerReturnedNil(rt, rq, io, h);
  }

  // What the response carries, over the calls of the handler.

  /** The handler ran and returned nil with a commit, or the error of `Ctx.Error`: the buffer is flushed. */
  predicate ReachesFlush(rt: Route, rq: Request, io: Io, h: Handler) {
    && !Refused(rt, rq) && io.begin == BeginOk && io.searchPathOk && h.ending != Panics
    && ((ErrOf(rt, h) == None && io.commitOk) || ErrOf(rt, h) == Some(Handled))
  }

  predicate BuffersReply(c: Call) {
    c.ErrorCall? || (c.JsonCall? && c.encoded.Some?)
  }

  /** The one response of `t` is `e`. */
  ghost predicate Answers(t: seq<Event>, e: Event) {
    Once(t, IsResponse) && forall i :: 0 <= i < |t| && IsResponse(t[i]) ==> t[i] == e
  }

  lemma FlushAnswers(rt: Route, rq: Request, io: Io, h: Handler)
    requires ReachesFlush(rt, rq, io, h)
    ensures Answers(Trace(rt, rq, io, h), Flushed(PerformAll(Empty, rt.byteServing, h.calls), io.serving))
  {
    ExactlyOneResponse(rt, rq, io, h);
  }

  /**
   * A flushed request whose last buffering call is `h.calls[k]` answers that call's status and
   * body, a server error over an unavailable database as a 503, and asks for a retry exactly when
   * some call of the handler was such an error.
   */
  lemma FlushSendsLastReply(rt: Route, rq: Request, io: Io, h: Handler, k: nat)
    requires ReachesFlush(rt, rq, io, h) && k < |h.calls| && BuffersReply(h.calls[k])
    requires forall j :: k < j < |h.calls| ==> !BuffersReply(h.calls[j])
    ensures var retry := exists j ::
              && 0 <= j < |h.calls| && h.calls[j].ErrorCall?
              && h.calls[j].errStatus >= 500 && h.calls[j].causeUnavailable;
            var response := match h.calls[k]
              case JsonCall(status, encoded) => Responded(status, retry, Text(encoded.value))
              case ErrorCall(status, msg, unavailable) =>
                Responded(if status >= 500 && unavailable then 503 else status, retry, Text(msg));
            Answers(Trace(rt, rq, io, h), response)
  {
    FlushAnswers(rt, rq, io, h);
    LastReplyWins(rt.byteServing, h.calls, k);
    RetryAfterIff(rt.byteServing, h.calls);
  }

  /** With no call that buffered and no file registered, a flushed request answers 204 and no body. */
  lemma FlushWithoutReply(rt: Route, rq: Request, io: Io, h: Handler)
    requires ReachesFlush(rt, rq, io, h) && forall j :: 0 <= j < |h.calls| ==> !BuffersReply(h.calls[j])
    requires !rt.byteServing || forall j :: 0 <= j < |h.calls| && h.calls[j].ServeFileCall? ==> h.calls[j].parsed.None?
    ensures Answers(Trace(rt, rq, io, h), Responded(204, false, Nothing))
  {
    FlushAnswers(rt, rq, io, h);
    ReplyIff(rt.byteServing, h.calls);
    FirstFileWins(rt.byteServing, h.calls);
  }

  /** With no call that buffered, the first file registered is what a flushed request answers with. */
  lemma FlushServesFirstFile(rt: Route, rq: Request, io: Io, h: Handler, k: nat)
    requires ReachesFlush(rt, rq, io, h) && forall j :: 0 <= j < |h.calls| ==> !BuffersReply(h.calls[j])
    requires rt.byteServing && k < |h.calls| && h.calls[k].ServeFileCall? && h.calls[k].parsed.Some?
    requires forall j :: 0 <= j < k && h.calls[j].ServeFileCall? ==> h.calls[j].parsed.None?
    ensures var t := Trace(rt, rq, io, h);
            && (io.serving.Streams? ==> Answers(t, Responded(200, false, FileBytes(h.calls[k].parsed.value))))
            && (io.serving.Missing? ==> Answers(t, Responded(404, false, Text("not found"))))
            && (io.serving.NoStore? ==> Answers(t, Responded(500, false, Text("internal error"))))
            && (io.serving.Broken? ==> Answers(t, Responded(500, false, Text("download failed"))))
  {
    FlushAnswers(rt, rq, io, h);
    ReplyIff(rt.byteServing, h.calls);
    assert Registers(rt.byteServing, h.calls, k);
    FirstFileWins(rt.byteServing, h.calls);
  }

  /**
   * The error a handler hands on from its call `k`, over the calls before it: a JSON call fails
   * only in the encoder, an error call always returns the handled one, and a file call succeeds
   * exactly when it registers its file.
   */
  lemma ReturnedErrorIs(rt: Route, h: Handler, k: nat)
    requires k < |h.calls| && h.ending == ReturnsResult(k)
    ensures var c := h.calls[k];
            var replied := exists j :: 0 <= j < k && BuffersReply(h.calls[j]);
            var filed := exists j :: j < k && FilesAt(h.calls, j);
            && (c.JsonCall? ==> ErrOf(rt, h) == if c.encoded.Some? then None else Some(Plain(Unknown)))
            && (c.ErrorCall? ==> ErrOf(rt, h) == Some(Handled))
            && (c.ServeFileCall? && (!rt.byteServing || replied || filed) ==> ErrOf(rt, h) == Some(Plain(Unknown)))
            && (c.ServeFileCall? && !(!rt.byteServing || replied || filed) ==>
                  ErrOf(rt, h) == if c.parsed.Some? then None else Some(Plain(FileNotFound)))
  {
    var before := h.calls[..k];
    ReplyIff(rt.byteServing, before);
    if rt.byteServing {
      FiledIff(before);
      if j :| FilesAt(before, j) {
        assert FilesAt(h.calls, j);
      }
      if j :| j < k && FilesAt(h.calls, j) {
        assert FilesAt(before, j);
      }
    }
    if j :| 0 <= j < k && BuffersReply(h.calls[j]) {
      assert ReplyOf(before[j]).Some?;
    }
    if j :| 0 <= j < k && ReplyOf(before[j]).Some? {
      assert BuffersReply(h.calls[j]);
    }
  }

  ghost predicate FilesAt(calls: seq<Call>, j: int) {
    && 0 <= j < |calls| && calls[j].ServeFileCall? && calls[j].parsed.Some?
    && forall i :: 0 <= i < j ==> !BuffersReply(calls[i])
  }

  /** On a route that serves files one is registered exactly when some file call came before any reply. */
  lemma {:induction false} FiledIff(calls: seq<Call>)
    ensures PerformAll(Empty, true, calls).file.Some? <==> exists j :: FilesAt(calls, j)
    decreases |calls|
  {
    if calls != [] {
      var n := |calls| - 1;
      var rest := calls[..n];
      FiledIff(rest);
      ReplyIff(true, rest);
      if j :| FilesAt(rest, j) {
        assert FilesAt(calls, j);
      } else if j :| FilesAt(calls, j) {
        assert j == n || FilesAt(rest, j);
      } else if CanServe(PerformAll(Empty, true, rest), true, calls[n]) {
        forall i | 0 <= i < n ensures !BuffersReply(calls[i]) {
          assert rest[i] == calls[i] && ReplyOf(rest[i]).None?;
        }
        assert FilesAt(calls, n);
      }
    }
  }

  /** Refused requests and ones without a transaction: what each is told, and that nothing was begun. */
  lemma UnstartedAnswers(rt: Route, rq: Request, io: Io, h: Handler)
    ensures var t := Trace(rt, rq, io, h);
            var limited := rt.limited && !rq.admitted;
            var forbidden := rt.requireRole.Some? && rq.role != rt.requireRole;
            && (!rq.tenantValid ==> t == [Responded(400, false, Text("invalid tenant"))])
            && (rq.tenantValid && limited ==> t == [Responded(429, true, Text("too many requests"))])
            && (rq.tenantValid && !limited && forbidden ==> t == [Responded(403, false, Text("forbidden"))])
            && (rq.tenantValid && !limited && !forbidden ==>
                  && (io.begin.BeginUnavailable? ==> t == [Responded(503, true, Text("service unavailable"))])
                  && (io.begin.BeginFailed? ==> t == [Responded(500, false, Text("internal error"))])
                  && (io.begin.BeginOk? ==> |t| > 0 && t[0] == Begun))
  {
  }

  /** Without a search path, or with a commit that fails, the client sees an internal error and nothing stays. */
  lemma BrokenTransactionAnswers(rt: Route, rq: Request, io: Io, h: Handler)
    requires !Refused(rt, rq) && io.begin == BeginOk
    requires !io.searchPathOk || (h.ending != Panics && ErrOf(rt, h) == None && !io.commitOk)
    ensures var t := Trace(rt, rq, io, h);
            && Answers(t, Responded(500, false, Text("internal error")))
            && Never(t, IsCommitted) && Never(t, IsCacheDropped) && t[|t| - 1] == RolledBack
  {
    ExactlyOneResponse(rt, rq, io, h);
  }

  /** Which faults a status stands for, and that only a fault of the service itself asks for a retry. */
  lemma FaultAnswers(rt: Route, rq: Request, io: Io, h: Handler, f: Fault, e: Event)
    requires !Refused(rt, rq) && io.begin == BeginOk && io.searchPathOk && h.ending != Panics
    requires ErrOf(rt, h) == Some(Plain(f)) && e in Trace(rt, rq, io, h) && e.Responded?
    ensures e.status == 422 <==> f.Validation? || f.InvalidTransition?
    ensures e.status == 403 <==> f.Forbidden?
    ensures e.status == 413 <==> f.BodyTooLarge?
    ensures e.status == 409 <==> f.UpdateConflict? || f.UniqueViolation? || f.ForeignKeyConflict? || f.RangeConflict?
    ensures e.status == 404 <==> f.FileNotFound?
    ensures e.status == 503 <==> f.Unavailable?
    ensures e.status == 500 <==> f.Unknown?
    ensures e.retryAfter <==> f.Unavailable?
    ensures f.Validation? ==> e.payload == Text(f.fields)
    ensures f.InvalidTransition? || f.UniqueViolation? || f.ForeignKeyConflict? ==> e.payload == Text(f.msg)
    ensures f.RangeConflict? ==> e.payload == Text(f.detail)
  {
    assert e == FaultResponse(f);
  }
}
