/** The buffered response and the memoized body of one custom-route request (ctx.go). */
module RequestCtx {
  import opened Hosts

  /** Errors a handler can hand back that are not `Ctx.Error`'s, as `writeHandlerError` tells them apart. */
  datatype Fault =
    | Validation(fields: string)
    | Forbidden
    | BodyTooLarge
    | InvalidTransition(msg: string)
    | UpdateConflict
    | UniqueViolation(msg: string)
    | ForeignKeyConflict(msg: string)
    | RangeConflict(detail: string)
    | FileNotFound
    | Unavailable
    | Unknown

  /** `Handled` is the error `Ctx.Error` returns; nothing else can make one. */
  datatype Err = Handled | Plain(fault: Fault)

  /** One call of a handler on its Ctx, with what the encoder and the id parser answer. */
  datatype Call =
    | JsonCall(status: nat, encoded: Option<string>)
    | ErrorCall(errStatus: nat, msg: string, causeUnavailable: bool)
    | ServeFileCall(parsed: Option<string>)

  datatype Reply = Reply(status: nat, body: string)

  /** What the Ctx holds between calls. */
  datatype Buffer = Buffer(reply: Option<Reply>, retryAfter: bool, file: Option<string>)

  const Empty := Buffer(None, false, None)

  predicate Reclassified(c: Call) {
    c.ErrorCall? && c.errStatus >= 500 && c.causeUnavailable
  }

  /** The reply a call buffers, if it buffers one. */
  function ReplyOf(c: Call): Option<Reply> {
    match c
    case JsonCall(status, encoded) => if encoded.Some? then Some(Reply(status, encoded.value)) else None
    case ErrorCall(status, msg, _) => Some(Reply(if Reclassified(c) then 503 else status, msg))
    case ServeFileCall(_) => None
  }

  /** The call registers a file when nothing is buffered or registered yet. */
  predicate CanServe(b: Buffer, byteServing: bool, c: Call) {
    c.ServeFileCall? && c.parsed.Some? && byteServing && b.reply.None? && b.file.None?
  }

  function Perform(b: Buffer, byteServing: bool, c: Call): Buffer {
    Buffer(
      if ReplyOf(c).Some? then ReplyOf(c) else b.reply,
      b.retryAfter || Reclassified(c),
      if CanServe(b, byteServing, c) then c.parsed else b.file)
  }

  function ResultOf(b: Buffer, byteServing: bool, c: Call): Option<Err> {
    match c
    case JsonCall(_, encoded) => if encoded.Some? then None else Some(Plain(Unknown))
    case ErrorCall(_, _, _) => Some(Handled)
    case ServeFileCall(parsed) =>
      if CanServe(b, byteServing, c) then None
      else if !byteServing || b.reply.Some? || b.file.Some? then Some(Plain(Unknown))
      else Some(Plain(FileNotFound))
  }

  function PerformAll(b: Buffer, byteServing: bool, calls: seq<Call>): Buffer
    decreases |calls|
  {
    if calls == [] then b
    else Perform(PerformAll(b, byteServing, calls[..|calls| - 1]), byteServing, calls[|calls| - 1])
  }

  // What the buffer means.

  /** The last call that buffered a reply decides it. */
  lemma {:induction false} LastReplyWins(byteServing: bool, calls: seq<Call>, k: nat)
    requires k < |calls| && ReplyOf(calls[k]).Some?
    requires forall j :: k < j < |calls| ==> ReplyOf(calls[j]).None?
    ensures PerformAll(Empty, byteServing, calls).reply == ReplyOf(calls[k])
    decreases |calls|
  {
    if k + 1 < |calls| {
      LastReplyWins(byteServing, calls[..|calls| - 1], k);
    }
  }

  lemma {:induction false} ReplyIff(byteServing: bool, calls: seq<Call>)
    ensures PerformAll(Empty, byteServing, calls).reply.Some? <==>
              exists k :: 0 <= k < |calls| && ReplyOf(calls[k]).Some?
    decreases |calls|
  {
    if calls != [] {
      var rest := calls[..|calls| - 1];
      ReplyIff(byteServing, rest);
      if k :| 0 <= k < |rest| && ReplyOf(rest[k]).Some? {
        assert ReplyOf(calls[k]).Some?;
      }
      if ReplyOf(calls[|calls| - 1]).None? {
        if k :| 0 <= k < |calls| && ReplyOf(calls[k]).Some? {
          assert rest[k] == calls[k];
        }
      }
    }
  }

  /** `calls[k]` is the first well-formed ServeFile and nothing was buffered before it. */
  ghost predicate Registers(byteServing: bool, calls: seq<Call>, k: nat) {
    && k < |calls| && byteServing && calls[k].ServeFileCall? && calls[k].parsed.Some?
    && (forall j :: 0 <= j < k ==> ReplyOf(calls[j]).None?)
    && (forall j :: 0 <= j < k ==> calls[j].ServeFileCall? ==> calls[j].parsed.None?)
  }

  /** The file is that of the first ServeFile that registers one; later calls never change it. */
  lemma {:induction false} FirstFileWins(byteServing: bool, calls: seq<Call>)
    ensures forall k: nat :: Registers(byteServing, calls, k) ==>
              PerformAll(Empty, byteServing, calls).file == calls[k].parsed
    ensures PerformAll(Empty, byteServing, calls).file.Some? ==> exists k: nat :: Registers(byteServing, calls, k)
    decreases |calls|
  {
    if calls != [] {
      var n := |calls| - 1;
      var rest := calls[..n];
      var b := PerformAll(Empty, byteServing, rest);
      FirstFileWins(byteServing, rest);
      ReplyIff(byteServing, rest);
      forall k: nat | Registers(byteServing, calls, k)
          ensures PerformAll(Empty, byteServing, calls).file == calls[k].parsed {
        if k < n {
          assert Registers(byteServing, rest, k);
        } else {
          assert b.reply.None? && b.file.None?;
        }
      }
      if b.file.Some? {
        var k: nat :| Registers(byteServing, rest, k);
        assert Registers(byteServing, calls, k);
      } else if CanServe(b, byteServing, calls[n]) {
        NoFileYet(byteServing, rest);
        assert Registers(byteServing, calls, n) by {
          forall j | 0 <= j < n ensures ReplyOf(calls[j]).None? && (calls[j].ServeFileCall? ==> calls[j].parsed.None?) {
            assert rest[j] == calls[j];
          }
        }
      }
    }
  }

  lemma {:induction false} NoFileYet(byteServing: bool, calls: seq<Call>)
    requires byteServing
    requires PerformAll(Empty, byteServing, calls).reply.None? && PerformAll(Empty, byteServing, calls).file.None?
    ensures forall j :: 0 <= j < |calls| ==> calls[j].ServeFileCall? ==> calls[j].parsed.None?
    decreases |calls|
  {
    if calls != [] {
      NoFileYet(byteServing, calls[..|calls| - 1]);
    }
  }

  /** The retry signal stays once any Error call was reclassified, whatever reply is sent in the end. */
  lemma {:induction false} RetryAfterIff(byteServing: bool, calls: seq<Call>)
    ensures PerformAll(Empty, byteServing, calls).retryAfter <==> exists k :: 0 <= k < |calls| && Reclassified(calls[k])
    decreases |calls|
  {
    if calls != [] {
      var rest := calls[..|calls| - 1];
      RetryAfterIff(byteServing, rest);
      if k :| 0 <= k < |rest| && Reclassified(rest[k]) {
        assert Reclassified(calls[k]);
      }
      if !Reclassified(calls[|calls| - 1]) {
        if k :| 0 <= k < |calls| && Reclassified(calls[k]) {
          assert rest[k] == calls[k];
        }
      }
    }
  }

  /**
   * The reply that is sent, when it was not reclassified itself, carries the retry signal exactly
   * when an earlier call was: an error it replaced.
   */
  lemma ForeignReplyCarriesRetryIff(byteServing: bool, calls: seq<Call>, k: nat)
    requires k < |calls| && ReplyOf(calls[k]).Some? && !Reclassified(calls[k])
    requires forall j :: k < j < |calls| ==> ReplyOf(calls[j]).None?
    ensures PerformAll(Empty, byteServing, calls).reply == ReplyOf(calls[k])
    ensures PerformAll(Empty, byteServing, calls).retryAfter <==> exists j :: 0 <= j < k && Reclassified(calls[j])
  {
    LastReplyWins(byteServing, calls, k);
    RetryAfterIff(byteServing, calls);
    forall j | k < j < |calls| ensures !Reclassified(calls[j]) {
      assert ReplyOf(calls[j]).None?;
    }
  }

  /** A 200 that replaces a reclassified error still carries the retry signal. */
  lemma RetryAfterOutlivesItsError(body: string, msg: string)
    ensures PerformAll(Empty, false, [ErrorCall(500, msg, true), JsonCall(200, Some(body))]) ==
            Buffer(Some(Reply(200, body)), true, None)
  {
    var calls := [ErrorCall(500, msg, true), JsonCall(200, Some(body))];
    assert calls[..1] == [calls[0]] && calls[..1][..0] == [];
    assert PerformAll(Empty, false, calls[..1]) == Perform(Empty, false, calls[0]);
  }

  const MaxBody: nat := 0x10_0000

  datatype BodyErr = TooLarge | Broken

  datatype Body = Body(bytes: seq<char>, err: Option<BodyErr>)

  /** What reading `body` under the cap yields. */
  function Capped(body: Body): Body {
    if |body.bytes| > MaxBody then Body(body.bytes[..MaxBody], Some(TooLarge)) else body
  }

  class RequestCtx {
    const byteServing: bool
    /** The request body as the client sent it; the stream can be read once. */
    const sent: Body
    var unread: Body
    var memo: Option<Body>
    var status: nat
    var body: string
    var isSet: bool
    var retryAfter: bool
    var serveFile: Option<string>

    predicate Valid()
      reads this
    {
      if memo.Some? then memo.value == Capped(sent) else unread == sent
    }

    function Buffered(): Buffer
      reads this
    {
      Buffer(if isSet then Some(Reply(status, body)) else None, retryAfter, serveFile)
    }

    constructor (byteServing: bool, sent: Body)
      ensures Valid() && Buffered() == Empty && this.byteServing == byteServing && this.sent == sent
    {
      this.byteServing, this.sent, unread, memo := byteServing, sent, sent, None;
      status, body, isSet, retryAfter, serveFile := 0, "", false, false, None;
    }

    /** `readBody`: however often and in whatever order the binders call it, the same bytes. */
    method ReadBody() returns (r: Body)
      requires Valid()
      modifies this`unread, this`memo
      ensures Valid() && r == Capped(sent)
      ensures |sent.bytes| <= 0x10_0000 ==> r == sent
      ensures |sent.bytes| > 0x10_0000 ==> r == Body(sent.bytes[..0x10_0000], Some(TooLarge))
      ensures memo == Some(r)
    {
      if memo.Some? {
        return memo.value;
      }
      r := Capped(unread);
      unread := Body([], None);
      memo := Some(r);
    }

    method Json(status: nat, encoded: Option<string>) returns (err: Option<Err>)
      requires Valid()
      modifies this`status, this`body, this`isSet
      ensures Valid()
      ensures Buffered() == Perform(old(Buffered()), byteServing, JsonCall(status, encoded))
      ensures err == ResultOf(old(Buffered()), byteServing, JsonCall(status, encoded))
    {
      if encoded.None? {
        return Some(Plain(Unknown));
      }
      this.status, body, isSet := status, encoded.value, true;
      return None;
    }

    method Error(status: nat, msg: string, causeUnavailable: bool) returns (err: Option<Err>)
      requires Valid()
      modifies this`status, this`body, this`isSet, this`retryAfter
      ensures Valid()
      ensures Buffered() == Perform(old(Buffered()), byteServing, ErrorCall(status, msg, causeUnavailable))
      ensures err == Some(Handled)
    {
      var code := status;
      if code >= 500 && causeUnavailable {
        code := 503;
        retryAfter := true;
      }
      this.status, body, isSet := code, msg, true;
      return Some(Handled);
    }

    method ServeFile(parsed: Option<string>) returns (err: Option<Err>)
      requires Valid()
      modifies this`serveFile
      ensures Valid()
      ensures Buffered() == Perform(old(Buffered()), byteServing, ServeFileCall(parsed))
      ensures err == ResultOf(old(Buffered()), byteServing, ServeFileCall(parsed))
    {
      if !byteServing || isSet || serveFile.Some? {
        return Some(Plain(Unknown));
      }
      if parsed.None? {
        return Some(Plain(FileNotFound));
      }
      serveFile := parsed;
      return None;
    }
  }
}
