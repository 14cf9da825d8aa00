/** Pairing the responses of a batched command with its requests (`cmd.resp` in raftstore/cmd.go and
    `execWriteRequest` in raftstore/peer_apply_exec.go). */
module Responses {
  import opened Bytes
  import opened Keys
  import opened Options

  datatype Request = Request(id: Key, sid: int, pid: int, key: Key)

  datatype Reply = Reply(
    id: Key, sid: int, pid: int, value: Key, stale: bool, origin: Option<Request>, error: Option<string>)

  /** A response with a header reports an error for the whole command. */
  datatype RaftResponse = RaftResponse(header: Option<string>, replies: seq<Reply>)

  datatype Outcome = Sent(response: RaftResponse) | CountMismatch

  predicate Paired(req: Request, reply: Reply) {
    reply.id == req.id && reply.sid == req.sid && reply.pid == req.pid
  }

  predicate SameBody(a: Reply, b: Reply) {
    a.value == b.value && a.stale == b.stale
  }

  predicate AllEncoded(reqs: seq<Request>) {
    forall i :: 0 <= i < |reqs| ==> |reqs[i].key| >= DATA_PREFIX_SIZE
  }

  /** The request as the client sent it. */
  function UserRequest(req: Request): Request
    requires |req.key| >= DATA_PREFIX_SIZE
  {
    req.(key := DecodeDataKey(req.key))
  }

  const BLANK: Reply := Reply([], 0, 0, [], false, None, None)

  const STALE_COMMAND: string := "stale command"

  /** What `reply` has become once answered: the same, except that one the handler marked as stale carries the
      error and the request to be sent again. */
  predicate Answers(req: Request, given: Reply, reply: Reply)
    requires |req.key| >= DATA_PREFIX_SIZE
  {
    && reply.value == given.value && reply.stale == given.stale
    && (if given.stale then reply.error == Some(STALE_COMMAND) && reply.origin == Some(UserRequest(req))
        else reply.error == given.error && reply.origin == given.origin)
  }

  /** The write handlers applied to the requests in order. */
  method ExecWriteRequest(reqs: seq<Request>, handler: Request -> Reply) returns (r: RaftResponse)
    requires AllEncoded(reqs)
    ensures r.header.None? && |r.replies| == |reqs|
    ensures forall i :: 0 <= i < |reqs| ==> Answers(reqs[i], handler(reqs[i]), r.replies[i])
  {
    var replies := [];
    for i := 0 to |reqs|
      invariant |replies| == i && forall k :: 0 <= k < i ==> Answers(reqs[k], handler(reqs[k]), replies[k])
    {
      var rsp := handler(reqs[i]);
      if rsp.stale {
        rsp := rsp.(error := Some(STALE_COMMAND), origin := Some(UserRequest(reqs[i])));
      }
      replies := replies + [rsp];
    }
    r := RaftResponse(None, replies);
  }

  /** A command without requests is answered as it is. Otherwise `resp` aborts exactly on a partial answer:
      another number of replies than requests, unless it is an error response without any; and if it does not,
      every reply carries the identity of its own request and keeps its body, and under an error it also carries
      the error and the request itself with the user's key. */
  method Resp(reqs: seq<Request>, resp: RaftResponse) returns (r: Outcome)
    requires AllEncoded(reqs)
    ensures r.Sent? <==> reqs == [] || |resp.replies| == |reqs| || (resp.header.Some? && resp.replies == [])
    ensures reqs == [] ==> r == Sent(resp)
    ensures r.Sent? && reqs != [] ==>
              && r.response.header == resp.header && |r.response.replies| == |reqs|
              && (forall i :: 0 <= i < |reqs| ==> Paired(reqs[i], r.response.replies[i]))
              && (forall i :: 0 <= i < |reqs| && i < |resp.replies| ==> SameBody(resp.replies[i], r.response.replies[i]))
              && (resp.header.None? ==> forall i :: 0 <= i < |reqs| ==>
                    r.response.replies[i].error == resp.replies[i].error && r.response.replies[i].origin == resp.replies[i].origin)
              && (resp.header.Some? ==> forall i :: 0 <= i < |reqs| ==>
                    r.response.replies[i].error == resp.header && r.response.replies[i].origin == Some(UserRequest(reqs[i])))
  {
    var replies := resp.replies;
    if |reqs| == 0 { return Sent(resp); }
    if |reqs| != |replies| {
      if resp.header.None? || |replies| != 0 { return CountMismatch; }
      for i := 0 to |reqs|
        invariant |replies| == i && forall k :: 0 <= k < i ==> Paired(reqs[k], replies[k])
      {
        replies := replies + [BLANK.(id := reqs[i].id, sid := reqs[i].sid, pid := reqs[i].pid)];
      }
    } else {
      for i := 0 to |reqs|
        invariant |replies| == |reqs| && forall k :: 0 <= k < i ==> Paired(reqs[k], replies[k])
        invariant forall k :: 0 <= k < |reqs| ==> SameBody(resp.replies[k], replies[k])
        invariant forall k :: 0 <= k < |reqs| ==> replies[k].error == resp.replies[k].error && replies[k].origin == resp.replies[k].origin
      {
        replies := replies[i := replies[i].(id := reqs[i].id, sid := reqs[i].sid, pid := reqs[i].pid)];
      }
    }
    if resp.header.Some? {
      ghost var paired := replies;
      for i := 0 to |replies|
        invariant |replies| == |reqs|
        invariant forall k :: 0 <= k < |reqs| ==> Paired(reqs[k], replies[k]) && SameBody(paired[k], replies[k])
        invariant forall k :: 0 <= k < i ==> replies[k].error == resp.header
        invariant forall k :: 0 <= k < i ==> replies[k].origin == Some(UserRequest(reqs[k]))
      {
        replies := replies[i := replies[i].(origin := Some(UserRequest(reqs[i])), error := resp.header)];
      }
    }
    r := Sent(RaftResponse(resp.header, replies));
  }

  /** A write command that executes is answered request by request with its own handler's reply, and one
      that does not is answered with the error; neither can reach the abort. */
  method AnswerWrite(reqs: seq<Request>, handler: Request -> Reply, failure: Option<string>) returns (replies: seq<Reply>)
    requires AllEncoded(reqs)
    ensures |replies| == |reqs| && forall i :: 0 <= i < |reqs| ==> Paired(reqs[i], replies[i])
    ensures failure.None? ==> forall i :: 0 <= i < |reqs| ==> Answers(reqs[i], handler(reqs[i]), replies[i])
    ensures failure.Some? ==> forall i :: 0 <= i < |reqs| ==> replies[i].error == failure
  {
    var resp := RaftResponse(failure, []);
    if failure.None? {
      resp := ExecWriteRequest(reqs, handler);
    }
    var r := Resp(reqs, resp);
    replies := r.response.replies;
  }
}
