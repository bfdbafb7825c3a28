/**
 * The inbound rate limiter, RateLimitHandler (ratelimit.go): one window per
 * client, keyed by the string a policy extracts from the request, and the two
 * gates ServeHTTP and LimitHandlerFunc in front of the wrapped handler.
 */
module Handler {
  import opened Common
  import opened Window
  import opened Policy

  /** The window stored for `client`, if any. */
  function Lookup(windows: map<string, seq<int>>, client: string): Option<seq<int>>
  {
    if client in windows then Some(windows[client]) else None
  }

  /** One call of `allowed` for a client whose window is `window`: an unseen
      client gets the window `[now]` and is admitted only when the capacity is
      more than one; a known client goes through the sliding-window rule. */
  function InboundDecision(window: Option<seq<int>>, now: int, duration: int, maxRequests: int): Decision
  {
    match window
    case None => Decision(maxRequests > 1, [now])
    case Some(counts) => Admit(counts, now, duration, maxRequests)
  }

  /** The first request of a client is always recorded as `[now]`, and admitted
      iff the capacity exceeds one; in particular a capacity of zero (or one)
      rejects it. */
  lemma FirstRequest(now: int, duration: int, maxRequests: int)
    ensures InboundDecision(None, now, duration, maxRequests).window == [now]
    ensures InboundDecision(None, now, duration, maxRequests).allowed <==> maxRequests > 1
  {
  }

  /** Every stored window holds at least one entry. */
  predicate AllNonEmpty(windows: map<string, seq<int>>)
  {
    forall c :: c in windows ==> |windows[c]| > 0
  }

  /** After a call the client's window is never empty. */
  lemma InboundWindowNonEmpty(window: Option<seq<int>>, now: int, duration: int, maxRequests: int)
    requires window.Some? ==> |window.value| > 0
    ensures |InboundDecision(window, now, duration, maxRequests).window| > 0
  {
    if window.Some? {
      PrunedShape(window.value, now - duration);
      AdmitRule(window.value, now, duration, maxRequests);
    }
  }

  /** Storing `w` for `client` leaves every other client's window alone and
      keeps all windows non-empty when `w` is. */
  lemma WindowsAfterCall(windows: map<string, seq<int>>, client: string, w: seq<int>)
    ensures forall c :: c != client ==> Lookup(windows[client := w], c) == Lookup(windows, c)
    ensures AllNonEmpty(windows) && |w| > 0 ==> AllNonEmpty(windows[client := w])
  {
  }

  /** One arrival: a client and the time of its request. */
  datatype Arrival = Arrival(client: string, time: int)

  /** Answers of the handler to a series of arrivals, starting from `windows`. */
  function Answers(windows: map<string, seq<int>>, arrivals: seq<Arrival>, duration: int, maxRequests: int): (r: seq<bool>)
    ensures |r| == |arrivals|
    decreases |arrivals|
  {
    if |arrivals| == 0 then []
    else
      var a := arrivals[0];
      var d := InboundDecision(Lookup(windows, a.client), a.time, duration, maxRequests);
      [d.allowed] + Answers(windows[a.client := d.window], arrivals[1..], duration, maxRequests)
  }

  /** The times at which `client` arrives, in order. */
  function TimesOf(arrivals: seq<Arrival>, client: string): seq<int>
    decreases |arrivals|
  {
    if |arrivals| == 0 then []
    else
      var here := if arrivals[0].client == client then [arrivals[0].time] else [];
      here + TimesOf(arrivals[1..], client)
  }

  /** The answers given to `client`'s arrivals, in order. */
  function AnswersOf(answers: seq<bool>, arrivals: seq<Arrival>, client: string): seq<bool>
    requires |answers| == |arrivals|
    decreases |arrivals|
  {
    if |arrivals| == 0 then []
    else
      var here := if arrivals[0].client == client then [answers[0]] else [];
      here + AnswersOf(answers[1..], arrivals[1..], client)
  }

  /** Answers to the calls of one client at `times`, from its stored window. */
  function RunClient(window: Option<seq<int>>, times: seq<int>, duration: int, maxRequests: int): (r: seq<bool>)
    ensures |r| == |times|
  {
    if |times| == 0 then []
    else
      var d := InboundDecision(window, times[0], duration, maxRequests);
      [d.allowed] + Run(d.window, times[1..], duration, maxRequests)
  }

  /** A known client is answered by the sliding-window rule alone. */
  lemma RunClientKnown(counts: seq<int>, times: seq<int>, duration: int, maxRequests: int)
    ensures RunClient(Some(counts), times, duration, maxRequests) == Run(counts, times, duration, maxRequests)
  {
  }

  /** Clients do not interfere: the answers one client gets from an interleaved
      series of arrivals are those it would get if it were alone. */
  lemma {:induction false} ClientsIndependent(windows: map<string, seq<int>>, arrivals: seq<Arrival>, client: string, duration: int, maxRequests: int)
    ensures AnswersOf(Answers(windows, arrivals, duration, maxRequests), arrivals, client)
      == RunClient(Lookup(windows, client), TimesOf(arrivals, client), duration, maxRequests)
    decreases |arrivals|
  {
    if |arrivals| > 0 {
      var a := arrivals[0];
      var d := InboundDecision(Lookup(windows, a.client), a.time, duration, maxRequests);
      var next := windows[a.client := d.window];
      var rest := arrivals[1..];
      ClientsIndependent(next, rest, client, duration, maxRequests);
      var answers := Answers(windows, arrivals, duration, maxRequests);
      assert answers == [d.allowed] + Answers(next, rest, duration, maxRequests);
      assert answers[1..] == Answers(next, rest, duration, maxRequests);
      if a.client == client {
        assert Lookup(next, client) == Some(d.window);
        assert TimesOf(arrivals, client) == [a.time] + TimesOf(rest, client);
        RunClientKnown(d.window, TimesOf(rest, client), duration, maxRequests);
      } else {
        assert Lookup(next, client) == Lookup(windows, client);
        assert TimesOf(arrivals, client) == TimesOf(rest, client);
      }
    }
  }

  /** A new client whose calls all fall inside one window, with a capacity of
      at least two, is admitted exactly on its first `maxRequests` calls. */
  lemma InboundQuota(times: seq<int>, duration: int, maxRequests: int, lo: int)
    requires maxRequests >= 2
    requires Between(times, lo, lo + duration)
    ensures forall k :: 0 <= k < |times| ==> RunClient(None, times, duration, maxRequests)[k] == (k < maxRequests)
  {
    if |times| > 0 {
      var rest := times[1..];
      assert Between(rest, lo, lo + duration) by {
        forall j | 0 <= j < |rest| ensures lo <= rest[j] <= lo + duration {
          assert rest[j] == times[j + 1];
        }
      }
      QuotaWithinWindow([times[0]], rest, duration, maxRequests, lo);
      var r := RunClient(None, times, duration, maxRequests);
      assert r == [true] + Run([times[0]], rest, duration, maxRequests);
      forall k | 0 <= k < |times|
        ensures r[k] == (k < maxRequests)
      {
        if k > 0 {
          assert r[k] == Run([times[0]], rest, duration, maxRequests)[k - 1];
        }
      }
    }
  }

  /** Two new clients interleaved inside one window each get their full quota. */
  lemma TwoClientsFullQuota(windows: map<string, seq<int>>, arrivals: seq<Arrival>, client: string, duration: int, maxRequests: int, lo: int)
    requires maxRequests >= 2
    requires client !in windows
    requires Between(TimesOf(arrivals, client), lo, lo + duration)
    ensures var mine := AnswersOf(Answers(windows, arrivals, duration, maxRequests), arrivals, client);
      forall k :: 0 <= k < |mine| ==> mine[k] == (k < maxRequests)
  {
    ClientsIndependent(windows, arrivals, client, duration, maxRequests);
    InboundQuota(TimesOf(arrivals, client), duration, maxRequests, lo);
  }

  /** With a capacity of at most one the handler admits nothing at all, from
      any state it can reach. */
  lemma AtMostOneNeverAdmits(window: Option<seq<int>>, times: seq<int>, duration: int, maxRequests: int)
    requires maxRequests <= 1
    requires window.Some? ==> |window.value| > 0
    ensures forall k :: 0 <= k < |times| ==> !RunClient(window, times, duration, maxRequests)[k]
  {
    if |times| > 0 {
      var d := InboundDecision(window, times[0], duration, maxRequests);
      InboundWindowNonEmpty(window, times[0], duration, maxRequests);
      if window.Some? {
        AdmitRule(window.value, times[0], duration, maxRequests);
        PrunedShape(window.value, times[0] - duration);
      }
      assert !d.allowed;
      CapacityOneLocksOut(d.window, times[1..], duration, maxRequests);
      var r := RunClient(window, times, duration, maxRequests);
      forall k | 0 <= k < |times|
        ensures !r[k]
      {
        if k > 0 {
          assert r[k] == Run(d.window, times[1..], duration, maxRequests)[k - 1];
        }
      }
    }
  }

  // ---------------------------------------------------------------------------
  // The first-request rule as evidently intended: a new client is admitted
  // like one with an empty window.

  /** Intended decision for one call: an unseen client is treated as an
      empty window, under the intended pruning. */
  function IntendedInboundDecision(window: Option<seq<int>>, now: int, duration: int, maxRequests: int): Decision
  {
    match window
    case None => IntendedAdmit([], now, duration, maxRequests)
    case Some(counts) => IntendedAdmit(counts, now, duration, maxRequests)
  }

  /** The intended first request is admitted iff the capacity is positive. */
  lemma IntendedFirstRequest(now: int, duration: int, maxRequests: int)
    ensures IntendedInboundDecision(None, now, duration, maxRequests).allowed <==> maxRequests > 0
    ensures IntendedInboundDecision(None, now, duration, maxRequests).window
      == if maxRequests > 0 then [now] else []
  {
    IntendedResetsAfterExpiry([], now, duration, maxRequests);
  }

  /** With a capacity of exactly one the code as written refuses the first
      request of a client, which the intended rule admits. */
  lemma CapacityOneFirstRequest(now: int, duration: int)
    ensures !InboundDecision(None, now, duration, 1).allowed
    ensures IntendedInboundDecision(None, now, duration, 1).allowed
  {
    IntendedFirstRequest(now, duration, 1);
  }

  /** Answers to the calls of one client under the intended rules. */
  function RunClientIntended(window: Option<seq<int>>, times: seq<int>, duration: int, maxRequests: int): (r: seq<bool>)
    ensures |r| == |times|
  {
    if |times| == 0 then []
    else
      var d := IntendedInboundDecision(window, times[0], duration, maxRequests);
      [d.allowed] + RunIntended(d.window, times[1..], duration, maxRequests)
  }

  /** With a capacity of two or more and a clock that does not go back, a new
      client gets exactly the answers the intended rules give. */
  lemma InboundAgreesWithIntended(times: seq<int>, duration: int, maxRequests: int)
    requires maxRequests >= 2
    requires Sorted(times)
    ensures RunClient(None, times, duration, maxRequests) == RunClientIntended(None, times, duration, maxRequests)
  {
    if |times| > 0 {
      var t := times[0];
      IntendedFirstRequest(t, duration, maxRequests);
      var rest := times[1..];
      assert Sorted(rest) by {
        forall i, j | 0 <= i < j < |rest|
          ensures rest[i] <= rest[j]
        {
          assert rest[i] == times[i + 1] && rest[j] == times[j + 1];
        }
      }
      AgreesWithIntended([t], [t], rest, duration, maxRequests);
    }
  }

  // ---------------------------------------------------------------------------
  // The handler object.

  /** What the downstream side of a gate is: the handler given to the
      limiter, or a handler function wrapped by LimitHandlerFunc. */
  datatype Downstream = WrappedHandler | HandlerFunc(id: nat)

  /** Outcome of one request at a gate. */
  datatype Outcome = Forwarded(to: Downstream) | Rejected(status: int, message: string)

  const TooManyRequests: Outcome := Rejected(429, "Too many requests.")

  /** The gate: forward when the policy identifies the client and that
      client is admitted, otherwise answer 429. */
  function Gate(client: Result<string, PolicyError>, admitted: bool, to: Downstream): (o: Outcome)
    ensures o.Forwarded? <==> client.Success? && admitted
    ensures o.Forwarded? ==> o.to == to
    ensures o.Rejected? ==> o == TooManyRequests
  {
    if client.Success? && admitted then Forwarded(to) else TooManyRequests
  }

  class RateLimitHandler {
    const maxRequests: int
    const duration: int
    const policy: RatePolicy
    var requestCounts: map<string, seq<int>>

    /** Every stored window holds at least one entry. */
    predicate Valid()
      reads this
    {
      AllNonEmpty(requestCounts)
    }

    /** `NewRateLimiter`: no client has been seen yet. */
    constructor (maxRequests: int, duration: int, policy: RatePolicy)
      ensures this.maxRequests == maxRequests && this.duration == duration && this.policy == policy
      ensures requestCounts == map[]
      ensures Valid()
    {
      this.maxRequests := maxRequests;
      this.duration := duration;
      this.policy := policy;
      requestCounts := map[];
    }

    /** `allowed(client)` with the clock reading `now`: only the client's own
        window changes, to the one the decision rule stores. */
    method Allowed(client: string, now: int) returns (allowed: bool)
      modifies this
      ensures var d := InboundDecision(Lookup(old(requestCounts), client), now, duration, maxRequests);
        allowed == d.allowed && requestCounts == old(requestCounts)[client := d.window]
      ensures client !in old(requestCounts) ==> requestCounts[client] == [now] && (allowed <==> maxRequests > 1)
      ensures forall c :: c != client ==> Lookup(requestCounts, c) == Lookup(old(requestCounts), c)
      ensures old(Valid()) ==> Valid()
      ensures old(Valid()) && maxRequests <= 1 ==> !allowed
    {
      ghost var before := requestCounts;
      if client in requestCounts {
        var counts := requestCounts[client];
        var i := Scan(counts, now - duration);
        var newCounts := counts[i..];
        AdmitRule(counts, now, duration, maxRequests);
        if |newCounts| >= maxRequests {
          allowed := false;
        } else {
          allowed := true;
          newCounts := newCounts + [now];
        }
        assert Admit(counts, now, duration, maxRequests) == Decision(allowed, newCounts);
        requestCounts := requestCounts[client := newCounts];
        PrunedShape(counts, now - duration);
      } else {
        var counts := [now];
        requestCounts := requestCounts[client := counts];
        if maxRequests > 1 {
          allowed := true;
        } else {
          allowed := false;
        }
      }
      WindowsAfterCall(before, client, InboundDecision(Lookup(before, client), now, duration, maxRequests).window);
    }

    /** Shared body of both gates: identify the client, consult `allowed`
        only when that succeeds, and forward or answer 429. */
    method Guard(req: Request, now: int, to: Downstream) returns (outcome: Outcome)
      modifies this
      ensures var id := GetClient(policy, req);
        && (id.Failure? ==> outcome == TooManyRequests && requestCounts == old(requestCounts))
        && (id.Success? ==>
              var d := InboundDecision(Lookup(old(requestCounts), id.value), now, duration, maxRequests);
              && outcome == Gate(id, d.allowed, to)
              && requestCounts == old(requestCounts)[id.value := d.window])
      ensures outcome.Forwarded? ==> outcome.to == to
      ensures old(Valid()) ==> Valid()
    {
      var id := GetClient(policy, req);
      if id.Success? {
        var ok := Allowed(id.value, now);
        if ok {
          outcome := Forwarded(to);
          return;
        }
      }
      outcome := TooManyRequests;
    }

    /** `ServeHTTP(w, req)`: forwards to the wrapped handler or answers 429. */
    method ServeHTTP(req: Request, now: int) returns (outcome: Outcome)
      modifies this
      ensures var id := GetClient(policy, req);
        && (id.Failure? ==> outcome == TooManyRequests && requestCounts == old(requestCounts))
        && (id.Success? ==>
              var d := InboundDecision(Lookup(old(requestCounts), id.value), now, duration, maxRequests);
              && (outcome == if d.allowed then Forwarded(WrappedHandler) else TooManyRequests)
              && requestCounts == old(requestCounts)[id.value := d.window])
      ensures old(Valid()) ==> Valid()
    {
      outcome := Guard(req, now, WrappedHandler);
    }

    /** `LimitHandlerFunc(hf)` applied to a request: the returned closure forwards
        to `hf` or answers 429, under the same rule as ServeHTTP. */
    method LimitHandlerFunc(hf: nat, req: Request, now: int) returns (outcome: Outcome)
      modifies this
      ensures var id := GetClient(policy, req);
        && (id.Failure? ==> outcome == TooManyRequests && requestCounts == old(requestCounts))
        && (id.Success? ==>
              var d := InboundDecision(Lookup(old(requestCounts), id.value), now, duration, maxRequests);
              && (outcome == if d.allowed then Forwarded(HandlerFunc(hf)) else TooManyRequests)
              && requestCounts == old(requestCounts)[id.value := d.window])
      ensures old(Valid()) ==> Valid()
    {
      outcome := Guard(req, now, HandlerFunc(hf));
    }
  }

  /** TestZeroLimitHandlerFunc: with a capacity of zero even the first
      request of a client is answered 429, and later ones are as well. */
  method ZeroLimitScenario(req: Request, t1: int, t2: int) returns (first: Outcome, second: Outcome)
    ensures first == TooManyRequests && second == TooManyRequests
  {
    var h := new RateLimitHandler(0, 3600000000000, IPRatePolicy);
    first := h.LimitHandlerFunc(0, req, t1);
    second := h.LimitHandlerFunc(0, req, t2);
    if IPClient(req).Success? {
      AdmitRule([t1], t2, 3600000000000, 0);
    }
  }
}
