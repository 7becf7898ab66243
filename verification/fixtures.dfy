/**
 * Fixtures: the response descriptor every fixture is built from, the three
 * fixture variants (in-memory body, status code only, sequence of
 * sub-fixtures), what running one does, and the constructors.
 */
module Fixtures {
  import opened Wrappers
  import opened Text
  import opened Paths
  import opened Requests
  import opened Assertions

  const StatusOK := 200
  const StatusNotFound := 404
  const MethodGet := "GET"

  /** The fixture method that matches every request method. */
  const AnyMethod := "*"

  /**
   * baseFixture: where the fixture is hosted, the method it answers, the
   * status it responds with and the assertions it runs on each request.
   */
  datatype Descriptor = Descriptor(route: string, verb: string, code: int, assertions: seq<Assertion>)

  /**
   * A fixture. `Mem` responds with a fixed body (memFixture), `Code` with a
   * status and no body (baseFixture on its own, as ResponseCode builds it),
   * and `Multi` hands the request to one of its sub-fixtures, chosen by the
   * cursor `next` (multiFixture).
   */
  datatype Fixture =
    | Mem(base: Descriptor, body: seq<byte>)
    | Code(base: Descriptor)
    | Multi(base: Descriptor, subs: seq<Fixture>, next: nat)

  /** The response a fixture produces: a status and, unless it has none, a body. */
  datatype Response = Response(status: int, body: Option<seq<byte>>)

  /** The result of running a fixture: its new state, its response and the updated sink. */
  datatype Step = Step(after: Fixture, resp: Response, sink: Sink)

  function Min(a: int, b: int): int {
    if a <= b then a else b
  }

  /**
   * Every sequence fixture, at any depth, has at least one sub-fixture and
   * a cursor no greater than their number.
   */
  predicate WellFormed(f: Fixture)
    decreases f
  {
    match f
    case Mem(_, _) => true
    case Code(_) => true
    case Multi(_, subs, next) =>
      && 0 < |subs|
      && next <= |subs|
      && forall i :: 0 <= i < |subs| ==> WellFormed(subs[i])
  }

  /**
   * The sub-fixture a sequence fixture delegates to on its next call: the
   * one under the cursor, or the last one once the cursor has run off the end.
   */
  function Selected(f: Fixture): (i: nat)
    requires f.Multi? && WellFormed(f)
    ensures i < |f.subs|
    ensures i == Min(f.next, |f.subs| - 1)
  {
    if f.next == |f.subs| then |f.subs| - 1 else f.next
  }

  /** The non-sequence fixture that will answer the next request to `f`. */
  function Leaf(f: Fixture): (l: Fixture)
    requires WellFormed(f)
    ensures !l.Multi?
    decreases f
  {
    match f
    case Mem(_, _) => f
    case Code(_) => f
    case Multi(_, subs, _) => Leaf(subs[Selected(f)])
  }

  /** What a non-sequence fixture responds: its status, with its body if it has one. */
  function Render(f: Fixture): (resp: Response)
    requires !f.Multi?
    ensures resp.status == f.base.code
    ensures resp.body.Some? <==> f.Mem?
    ensures f.Mem? ==> resp.body == Some(f.body)
  {
    match f
    case Mem(b, body) => Response(b.code, Some(body))
    case Code(b) => Response(b.code, None)
  }

  /**
   * F.Run. A memFixture or baseFixture runs its assertions and responds with
   * its status (and body). A multiFixture passes the request to the
   * sub-fixture under its cursor and advances the cursor, or, once the
   * cursor is at the end, passes it to the last sub-fixture and stays put.
   */
  function Run(f: Fixture, req: Request, sink: Sink): (r: Step)
    requires WellFormed(f)
    ensures WellFormed(r.after)
    ensures r.after.base == f.base
    ensures r.resp == Render(Leaf(f))
    ensures r.sink == AssertAll(Leaf(f).base.assertions, req, sink)
    ensures !f.Multi? ==> r.after == f
    ensures f.Multi? ==>
      && r.after.Multi?
      && |r.after.subs| == |f.subs|
      && r.after.next == Min(f.next + 1, |f.subs|)
      && forall j :: 0 <= j < |f.subs| && j != Selected(f) ==> r.after.subs[j] == f.subs[j]
    ensures f.Multi? ==> r.after.subs[Selected(f)] == Run(f.subs[Selected(f)], req, sink).after
    decreases f
  {
    match f
    case Mem(b, body) =>
      Step(f, Response(b.code, Some(body)), AssertAll(b.assertions, req, sink))
    case Code(b) =>
      Step(f, Response(b.code, None), AssertAll(b.assertions, req, sink))
    case Multi(b, subs, next) =>
      var curr := if next == |subs| then |subs| - 1 else next;
      var s := Run(subs[curr], req, sink);
      var subs' := subs[curr := s.after];
      assert forall i :: 0 <= i < |subs'| ==> WellFormed(subs'[i]);
      Step(Multi(b, subs', if next == |subs| then next else next + 1), s.resp, s.sink)
  }

  /**
   * A fixture's response does not depend on the request: fixtures are
   * logicless. Only the assertions' verdicts do.
   */
  lemma RunIsLogicless(f: Fixture, req1: Request, req2: Request, sink1: Sink, sink2: Sink)
    requires WellFormed(f)
    ensures Run(f, req1, sink1).resp == Run(f, req2, sink2).resp
    ensures Run(f, req1, sink1).after == Run(f, req2, sink2).after
  {
  }

  /** Running a fixture only appends to the log and never clears a failure. */
  lemma RunOnlyAddsFailures(f: Fixture, req: Request, sink: Sink)
    requires WellFormed(f)
    ensures sink.logs <= Run(f, req, sink).sink.logs
    ensures sink.failed ==> Run(f, req, sink).sink.failed
    ensures Run(f, req, sink).sink.failed <==> sink.failed || AnyFails(Leaf(f).base.assertions, req)
  {
  }

  // ---------------------------------------------------------------------
  // Constructors
  // ---------------------------------------------------------------------

  /**
   * base: the route is standardised and each option, in the order given,
   * appends its assertion.
   */
  function Base(route: string, verb: string, code: int, opts: seq<Assertion>): (d: Descriptor)
    ensures d.route == Standardize(route)
    ensures IsRooted(d.route)
    ensures |route| <= |d.route| <= |route| + 1 && d.route[|d.route| - |route|..] == route
    ensures d.verb == verb && d.code == code
    ensures d.assertions == opts
  {
    StandardizeKeepsRoute(route);
    Descriptor(Standardize(route), verb, code, opts)
  }

  /** Bytes: a fixture answering `verb` at `route` with the given status and body. */
  function Bytes(route: string, verb: string, code: int, body: seq<byte>, opts: seq<Assertion>): (f: Fixture)
    ensures WellFormed(f) && !f.Multi?
    ensures f.base == Base(route, verb, code, opts)
    ensures Render(f) == Response(code, Some(body))
  {
    Mem(Base(route, verb, code, opts), body)
  }

  /** BytesOK: as Bytes, with status 200. */
  function BytesOK(route: string, verb: string, body: seq<byte>, opts: seq<Assertion>): (f: Fixture)
    ensures WellFormed(f) && !f.Multi?
    ensures f.base == Base(route, verb, StatusOK, opts)
    ensures f.base.verb == verb && f.base.route == Standardize(route)
    ensures Render(f) == Response(StatusOK, Some(body))
  {
    Bytes(route, verb, StatusOK, body, opts)
  }

  /**
   * OK: a fixture answering every method at `route` with status 200 and the
   * given body (the body string's bytes).
   */
  function OK(route: string, body: seq<byte>, opts: seq<Assertion>): (f: Fixture)
    ensures WellFormed(f) && !f.Multi?
    ensures f.base.verb == AnyMethod && f.base.route == Standardize(route)
    ensures f.base.assertions == opts
    ensures Render(f) == Response(StatusOK, Some(body))
  {
    BytesOK(route, AnyMethod, body, opts)
  }

  /** GetOK (and GetBytesOK): a fixture answering GET at `route` with status 200 and the body. */
  function GetOK(route: string, body: seq<byte>, opts: seq<Assertion>): (f: Fixture)
    ensures WellFormed(f) && !f.Multi?
    ensures f.base.verb == MethodGet && f.base.route == Standardize(route)
    ensures f.base.assertions == opts
    ensures Render(f) == Response(StatusOK, Some(body))
  {
    BytesOK(route, MethodGet, body, opts)
  }

  /** ResponseCode: a fixture answering with the given status and no body. */
  function ResponseCode(route: string, verb: string, code: int, opts: seq<Assertion>): (f: Fixture)
    ensures WellFormed(f) && !f.Multi?
    ensures f.base == Base(route, verb, code, opts)
    ensures Render(f) == Response(code, None)
  {
    Code(Base(route, verb, code, opts))
  }

  /** NotFound: a fixture answering with status 404 and no body. */
  function NotFound(route: string, verb: string, opts: seq<Assertion>): (f: Fixture)
    ensures WellFormed(f) && !f.Multi?
    ensures f.base == Base(route, verb, StatusNotFound, opts)
    ensures f.base.verb == verb && f.base.route == Standardize(route) && f.base.assertions == opts
    ensures Render(f) == Response(StatusNotFound, None)
  {
    ResponseCode(route, verb, StatusNotFound, opts)
  }

  /**
   * Seq: a fixture serving its sub-fixtures in order, the last one for
   * every call after the others are used up. It carries no assertions and
   * status 0 of its own; the sub-fixtures' routes and methods are never
   * consulted. Called with no sub-fixtures the source fails on the first
   * request, so at least one is required.
   */
  function Seq(route: string, verb: string, fixtures: seq<Fixture>): (f: Fixture)
    requires 0 < |fixtures|
    requires forall i :: 0 <= i < |fixtures| ==> WellFormed(fixtures[i])
    ensures WellFormed(f) && f.Multi?
    ensures f.base.verb == verb && f.base.route == Standardize(route)
    ensures f.base.assertions == [] && f.subs == fixtures && f.next == 0
    ensures Leaf(f) == Leaf(fixtures[0])
  {
    Multi(Base(route, verb, 0, []), fixtures, 0)
  }

  // ---------------------------------------------------------------------
  // Repeated calls
  // ---------------------------------------------------------------------

  /** The outcome of a run of consecutive requests to one fixture. */
  datatype Series = Series(after: Fixture, responses: seq<Response>, sink: Sink)

  /** Runs the requests one after another, threading the fixture's state and the sink. */
  function RunSeries(f: Fixture, reqs: seq<Request>, sink: Sink): (r: Series)
    requires WellFormed(f)
    ensures WellFormed(r.after)
    ensures |r.responses| == |reqs|
    decreases |reqs|
  {
    if |reqs| == 0 then Series(f, [], sink)
    else
      var s := Run(f, reqs[0], sink);
      var rest := RunSeries(s.after, reqs[1..], s.sink);
      Series(rest.after, [s.resp] + rest.responses, rest.sink)
  }

  /**
   * After k calls a sequence fixture's cursor stands at min(next + k, n):
   * it advances by one per call, never passes the end, and once at the end
   * never moves again.
   */
  lemma {:induction false} SeriesCursor(f: Fixture, reqs: seq<Request>, sink: Sink)
    requires WellFormed(f) && f.Multi?
    ensures RunSeries(f, reqs, sink).after.Multi?
    ensures |RunSeries(f, reqs, sink).after.subs| == |f.subs|
    ensures RunSeries(f, reqs, sink).after.next == Min(f.next + |reqs|, |f.subs|)
    decreases |reqs|
  {
    if |reqs| > 0 {
      var s := Run(f, reqs[0], sink);
      SeriesCursor(s.after, reqs[1..], s.sink);
    }
  }

  /** A sequence fixture whose cursor is at the end keeps it there for any number of calls. */
  lemma SeriesExhaustedStays(f: Fixture, reqs: seq<Request>, sink: Sink)
    requires WellFormed(f) && f.Multi? && f.next == |f.subs|
    ensures RunSeries(f, reqs, sink).after.Multi?
    ensures RunSeries(f, reqs, sink).after.next == |f.subs|
  {
    SeriesCursor(f, reqs, sink);
  }

  /**
   * The response to the k-th call of a series is what the fixture, in the
   * state the first k calls left it in, answers.
   */
  lemma {:induction false} SeriesStep(f: Fixture, reqs: seq<Request>, sink: Sink, k: nat)
    requires WellFormed(f) && k < |reqs|
    ensures
      var pre := RunSeries(f, reqs[..k], sink);
      RunSeries(f, reqs, sink).responses[k] == Run(pre.after, reqs[k], pre.sink).resp
    decreases k
  {
    if k > 0 {
      var s := Run(f, reqs[0], sink);
      SeriesStep(s.after, reqs[1..], s.sink, k - 1);
      assert reqs[..k][0] == reqs[0];
      assert reqs[..k][1..] == reqs[1..][..k - 1];
      assert reqs[1..][k - 1] == reqs[k];
    }
  }

  /**
   * The k-th call (counting from 0) to a sequence fixture is answered by
   * sub-fixture min(next + k, n - 1), in whatever state earlier calls left it.
   */
  lemma KthCallSelects(f: Fixture, reqs: seq<Request>, sink: Sink, k: nat)
    requires WellFormed(f) && f.Multi? && k < |reqs|
    ensures
      var pre := RunSeries(f, reqs[..k], sink);
      && pre.after.Multi?
      && Selected(pre.after) == Min(f.next + k, |f.subs| - 1)
      && RunSeries(f, reqs, sink).responses[k] == Render(Leaf(pre.after.subs[Selected(pre.after)]))
  {
    SeriesCursor(f, reqs[..k], sink);
    SeriesStep(f, reqs, sink, k);
  }

  /**
   * When every sub-fixture is static, the k-th call answers exactly as
   * sub-fixture min(next + k, n - 1) does: each sub-fixture once in order,
   * then the last one forever.
   */
  lemma {:induction false} StaticSeries(f: Fixture, reqs: seq<Request>, sink: Sink)
    requires WellFormed(f) && f.Multi?
    requires forall i :: 0 <= i < |f.subs| ==> !f.subs[i].Multi?
    ensures forall k :: 0 <= k < |reqs| ==>
      RunSeries(f, reqs, sink).responses[k] == Render(f.subs[Min(f.next + k, |f.subs| - 1)])
    decreases |reqs|
  {
    if |reqs| > 0 {
      var s := Run(f, reqs[0], sink);
      assert s.after.subs == f.subs;
      StaticSeries(s.after, reqs[1..], s.sink);
      var r := RunSeries(f, reqs, sink);
      forall k | 0 <= k < |reqs|
        ensures r.responses[k] == Render(f.subs[Min(f.next + k, |f.subs| - 1)])
      {
        if k > 0 {
          assert r.responses[k] == RunSeries(s.after, reqs[1..], s.sink).responses[k - 1];
        }
      }
    }
  }
}
