/**
 * The outbound rate limiter, RateLimitRequester (ratelimit.go): one window
 * shared by all calls, in front of a wrapped requester. Each of its request
 * methods checks the window and then either delegates the call unchanged or
 * fails with RateLimitExceeded without reaching the wrapped requester.
 */
module Requester {
  import opened Common
  import opened Window
  import Payload

  /** URL query parameters. */
  type ParameterMap = map<string, string>

  /** Form values, each name with its list of values. */
  type Values = map<string, seq<string>>

  /** A response of the wrapped requester, which the limiter never inspects. */
  datatype Response = Response(code: int, data: seq<Byte>)

  datatype Error = RateLimitExceeded | Wrapped(message: string)

  const RateLimitExceededMessage: string := "Rate limit exceeded."

  /** The text `Error()` gives for an error: the limiter's own message, or
      the wrapped requester's. */
  function Message(e: Error): string
  {
    match e
    case RateLimitExceeded => RateLimitExceededMessage
    case Wrapped(message) => message
  }

  /** What a request method returns: `(res, err)`, either of which may be nil. */
  datatype Reply = Reply(response: Option<Response>, err: Option<Error>)

  /** The result of a call refused by the limiter: `(nil, RateLimitExceededErr)`. */
  const Exceeded: Reply := Reply(None, Some(RateLimitExceeded))

  /** One call of the Requester interface, with its arguments. `json` stands
      for the Go value to be encoded as JSON. */
  datatype Call =
    | Get(url: string, params: ParameterMap)
    | Post(url: string, params: ParameterMap)
    | PostJson(url: string, params: ParameterMap, json: string)
    | PostRaw(url: string, params: ParameterMap, data: seq<Byte>)
    | PostMultipart(url: string, params: ParameterMap, multipart: Payload.MultipartPayload)
    | PostValues(url: string, params: ParameterMap, values: Values)
    | Put(url: string, params: ParameterMap)
    | PutJson(url: string, params: ParameterMap, json: string)
    | PutRaw(url: string, params: ParameterMap, data: seq<Byte>)
    | PutMultipart(url: string, params: ParameterMap, multipart: Payload.MultipartPayload)
    | PutValues(url: string, params: ParameterMap, values: Values)
    | Delete(url: string, params: ParameterMap)
    | MakeRequest(url: string, params: ParameterMap, httpMethod: string, load: Option<Payload.Payload>)

  /** The wrapped requester: it answers each call by the fixed `respond` and
      records the calls it receives. */
  class Backend {
    const respond: Call -> Reply
    var calls: seq<Call>

    constructor (respond: Call -> Reply)
      ensures this.respond == respond && calls == []
    {
      this.respond := respond;
      calls := [];
    }

    method Perform(c: Call) returns (reply: Reply)
      modifies this
      ensures calls == old(calls) + [c] && reply == respond(c)
    {
      calls := calls + [c];
      reply := respond(c);
    }
  }

  class RateLimitRequester {
    const requester: Backend
    const limit: int
    const duration: int
    var requestCounts: seq<int>

    /** `NewRateLimitRequester`: an empty history. */
    constructor (requester: Backend, limit: int, duration: int)
      ensures this.requester == requester && this.limit == limit && this.duration == duration
      ensures requestCounts == []
    {
      this.requester := requester;
      this.limit := limit;
      this.duration := duration;
      requestCounts := [];
    }

    /** `allowed()` with the clock reading `now`: the history becomes the
        window the decision rule stores. */
    method Allowed(now: int) returns (allowed: bool)
      modifies this
      ensures var d := Admit(old(requestCounts), now, duration, limit);
        allowed == d.allowed && requestCounts == d.window
      ensures old(requestCounts) == [] ==>
        (allowed <==> limit > 0) && requestCounts == if allowed then [now] else []
    {
      var i := Scan(requestCounts, now - duration);
      var newCounts: seq<int> := [];
      if |requestCounts| > 0 {
        newCounts := requestCounts[i..];
      }
      AdmitRule(requestCounts, now, duration, limit);
      if |newCounts| >= limit {
        allowed := false;
      } else {
        allowed := true;
        newCounts := newCounts + [now];
      }
      requestCounts := newCounts;
    }

    /** The effect every request method has: the window advances as Allowed
        says; an admitted call reaches the wrapped requester once and its
        reply is returned unchanged; a refused one does not reach it and
        yields Exceeded. */
    twostate predicate Gated(c: Call, now: int, reply: Reply)
      reads this, requester
    {
      var d := Admit(old(requestCounts), now, duration, limit);
      && requestCounts == d.window
      && (d.allowed ==> requester.calls == old(requester.calls) + [c] && reply == requester.respond(c))
      && (!d.allowed ==> requester.calls == old(requester.calls) && reply == Exceeded
                         && Message(reply.err.value) == RateLimitExceededMessage)
    }

    /** Check, then delegate or refuse. */
    method Forward(c: Call, now: int) returns (reply: Reply)
      modifies this, requester
      ensures Gated(c, now, reply)
    {
      var ok := Allowed(now);
      if ok {
        reply := requester.Perform(c);
      } else {
        reply := Exceeded;
      }
    }

    method Get(url: string, p: ParameterMap, now: int) returns (res: Option<Response>, err: Option<Error>)
      modifies this, requester
      ensures Gated(Call.Get(url, p), now, Reply(res, err))
    {
      var reply := Forward(Call.Get(url, p), now);
      res, err := reply.response, reply.err;
    }

    method Post(url: string, p: ParameterMap, now: int) returns (res: Option<Response>, err: Option<Error>)
      modifies this, requester
      ensures Gated(Call.Post(url, p), now, Reply(res, err))
    {
      var reply := Forward(Call.Post(url, p), now);
      res, err := reply.response, reply.err;
    }

    method PostJson(url: string, p: ParameterMap, v: string, now: int) returns (res: Option<Response>, err: Option<Error>)
      modifies this, requester
      ensures Gated(Call.PostJson(url, p, v), now, Reply(res, err))
    {
      var reply := Forward(Call.PostJson(url, p, v), now);
      res, err := reply.response, reply.err;
    }

    method PostRaw(url: string, p: ParameterMap, data: seq<Byte>, now: int) returns (res: Option<Response>, err: Option<Error>)
      modifies this, requester
      ensures Gated(Call.PostRaw(url, p, data), now, Reply(res, err))
    {
      var reply := Forward(Call.PostRaw(url, p, data), now);
      res, err := reply.response, reply.err;
    }

    method PostMultipart(url: string, p: ParameterMap, m: Payload.MultipartPayload, now: int) returns (res: Option<Response>, err: Option<Error>)
      modifies this, requester
      ensures Gated(Call.PostMultipart(url, p, m), now, Reply(res, err))
    {
      var reply := Forward(Call.PostMultipart(url, p, m), now);
      res, err := reply.response, reply.err;
    }

    method PostValues(url: string, p: ParameterMap, v: Values, now: int) returns (res: Option<Response>, err: Option<Error>)
      modifies this, requester
      ensures Gated(Call.PostValues(url, p, v), now, Reply(res, err))
    {
      var reply := Forward(Call.PostValues(url, p, v), now);
      res, err := reply.response, reply.err;
    }

    method Put(url: string, p: ParameterMap, now: int) returns (res: Option<Response>, err: Option<Error>)
      modifies this, requester
      ensures Gated(Call.Put(url, p), now, Reply(res, err))
    {
      var reply := Forward(Call.Put(url, p), now);
      res, err := reply.response, reply.err;
    }

    method PutJson(url: string, p: ParameterMap, v: string, now: int) returns (res: Option<Response>, err: Option<Error>)
      modifies this, requester
      ensures Gated(Call.PutJson(url, p, v), now, Reply(res, err))
    {
      var reply := Forward(Call.PutJson(url, p, v), now);
      res, err := reply.response, reply.err;
    }

    method PutRaw(url: string, p: ParameterMap, data: seq<Byte>, now: int) returns (res: Option<Response>, err: Option<Error>)
      modifies this, requester
      ensures Gated(Call.PutRaw(url, p, data), now, Reply(res, err))
    {
      var reply := Forward(Call.PutRaw(url, p, data), now);
      res, err := reply.response, reply.err;
    }

    method PutMultipart(url: string, p: ParameterMap, m: Payload.MultipartPayload, now: int) returns (res: Option<Response>, err: Option<Error>)
      modifies this, requester
      ensures Gated(Call.PutMultipart(url, p, m), now, Reply(res, err))
    {
      var reply := Forward(Call.PutMultipart(url, p, m), now);
      res, err := reply.response, reply.err;
    }

    method PutValues(url: string, p: ParameterMap, v: Values, now: int) returns (res: Option<Response>, err: Option<Error>)
      modifies this, requester
      ensures Gated(Call.PutValues(url, p, v), now, Reply(res, err))
    {
      var reply := Forward(Call.PutValues(url, p, v), now);
      res, err := reply.response, reply.err;
    }

    method Delete(url: string, p: ParameterMap, now: int) returns (res: Option<Response>, err: Option<Error>)
      modifies this, requester
      ensures Gated(Call.Delete(url, p), now, Reply(res, err))
    {
      var reply := Forward(Call.Delete(url, p), now);
      res, err := reply.response, reply.err;
    }

    method MakeRequest(url: string, p: ParameterMap, httpMethod: string, load: Option<Payload.Payload>, now: int)
      returns (res: Option<Response>, err: Option<Error>)
      modifies this, requester
      ensures Gated(Call.MakeRequest(url, p, httpMethod, load), now, Reply(res, err))
    {
      var reply := Forward(Call.MakeRequest(url, p, httpMethod, load), now);
      res, err := reply.response, reply.err;
    }
  }

  /** An empty history admits the first call iff the limit is positive, and
      then holds just that call. */
  lemma EmptyHistory(now: int, duration: int, limit: int)
    ensures Admit([], now, duration, limit) == if limit > 0 then Decision(true, [now]) else Decision(false, [])
  {
    AdmitRule([], now, duration, limit);
  }

  /** With a limit of one, of two calls inside one window the first is
      admitted and the second refused. */
  lemma LimitOneSecondRefused(t1: int, t2: int, duration: int)
    requires t1 <= t2 <= t1 + duration
    ensures Run([], [t1, t2], duration, 1) == [true, false]
  {
    assert Between([t1, t2], t1, t1 + duration);
    QuotaFromEmpty([t1, t2], duration, 1, t1);
  }

  /** TestLimitedGet: a requester limited to one call per hour passes the
      first Get to the wrapped requester and refuses the second. */
  method LimitedGetScenario(backend: Backend, url: string, t1: int, t2: int)
    returns (first: Reply, second: Reply)
    requires t1 <= t2 <= t1 + 3600000000000
    modifies backend
    ensures first == backend.respond(Call.Get(url, map[]))
    ensures second == Exceeded
    ensures backend.calls == old(backend.calls) + [Call.Get(url, map[])]
  {
    var l := new RateLimitRequester(backend, 1, 3600000000000);
    var res, err := l.Get(url, map[], t1);
    first := Reply(res, err);
    res, err := l.Get(url, map[], t2);
    second := Reply(res, err);
    AdmitRule([t1], t2, 3600000000000, 1);
    PrunedFromFirstInWindow([t1], t2 - 3600000000000, 0);
  }
}
