/**
 * The test server's request handling (Server.ServeHTTP): pick the first
 * registered fixture whose route is a prefix of the request path and whose
 * method matches, run it, and write its status and body; answer 404 when
 * no fixture matches.
 */
module Server {
  import opened Wrappers
  import opened Text
  import opened Requests
  import opened Assertions
  import opened Fixtures

  /** The text http.NotFound writes as the body of its 404 reply. */
  const NotFoundText := "404 page not found\n"

  function NotFoundBody(): (b: seq<byte>)
    ensures |b| == |NotFoundText|
  {
    AsciiBytes(NotFoundText)
  }

  /**
   * A fixture answers a request when its route is a string prefix of the
   * request path and its method is the wildcard or the request's method.
   */
  predicate Matches(f: Fixture, verb: string, path: string): (m: bool)
    ensures m <==>
      && |f.base.route| <= |path|
      && path[..|f.base.route|] == f.base.route
      && (f.base.verb == AnyMethod || f.base.verb == verb)
  {
    f.base.route <= path && (f.base.verb == AnyMethod || f.base.verb == verb)
  }

  /** A wildcard fixture answers every method; any other answers only its own. */
  lemma MethodMatching(f: Fixture, verb: string, path: string)
    ensures f.base.verb == AnyMethod ==> (Matches(f, verb, path) <==> f.base.route <= path)
    ensures f.base.verb != AnyMethod ==>
      (Matches(f, verb, path) <==> f.base.route <= path && verb == f.base.verb)
  {
  }

  /**
   * The route-selection loop: the index of the first fixture that answers
   * the request, or None when none does.
   */
  function Dispatch(routes: seq<Fixture>, verb: string, path: string): (r: Option<nat>)
    ensures r.Some? ==>
      && r.value < |routes|
      && Matches(routes[r.value], verb, path)
      && forall j :: 0 <= j < r.value ==> !Matches(routes[j], verb, path)
    ensures r.None? <==> forall j :: 0 <= j < |routes| ==> !Matches(routes[j], verb, path)
    decreases |routes|
  {
    if |routes| == 0 then None
    else if Matches(routes[0], verb, path) then Some(0)
    else
      var rest := Dispatch(routes[1..], verb, path);
      assert forall j :: 0 < j < |routes| ==> routes[1..][j - 1] == routes[j];
      match rest
      case None => None
      case Some(i) => Some(i + 1)
  }

  /** Matching reads only a fixture's route and method, so tables that agree on them dispatch alike. */
  lemma DispatchReadsOnlyDescriptors(a: seq<Fixture>, b: seq<Fixture>, verb: string, path: string)
    requires |a| == |b|
    requires forall j :: 0 <= j < |a| ==> a[j].base.route == b[j].base.route && a[j].base.verb == b[j].base.verb
    ensures Dispatch(a, verb, path) == Dispatch(b, verb, path)
  {
    assert forall j :: 0 <= j < |a| ==> (Matches(a[j], verb, path) <==> Matches(b[j], verb, path));
  }

  /** An earlier fixture that answers a request shadows every later one. */
  lemma FirstRegistrationWins(routes: seq<Fixture>, verb: string, path: string, i: nat)
    requires i < |routes| && Matches(routes[i], verb, path)
    ensures Dispatch(routes, verb, path).Some?
    ensures Dispatch(routes, verb, path).value <= i
  {
  }

  predicate AllWellFormed(routes: seq<Fixture>) {
    forall j :: 0 <= j < |routes| ==> WellFormed(routes[j])
  }

  /** What the handler writes back: a status and the body bytes. */
  datatype Reply = Reply(status: int, body: seq<byte>)

  /** The routing table after a request, the reply written, and the updated sink. */
  datatype Served = Served(routes: seq<Fixture>, reply: Reply, sink: Sink)

  /**
   * ServeHTTP, up to writing the reply: no matching fixture gives a 404
   * with http.NotFound's body and touches nothing else; otherwise the
   * selected fixture runs (its assertions report to the sink, its cursor
   * may advance) and its status and body, or an empty body when it has
   * none, are written.
   */
  function Serve(routes: seq<Fixture>, req: Request, sink: Sink): (r: Served)
    requires AllWellFormed(routes)
    ensures AllWellFormed(r.routes) && |r.routes| == |routes|
    ensures forall j :: 0 <= j < |routes| ==> r.routes[j].base == routes[j].base
    ensures Dispatch(routes, req.verb, req.url.path).None? ==>
      r == Served(routes, Reply(StatusNotFound, NotFoundBody()), sink)
    ensures Dispatch(routes, req.verb, req.url.path).Some? ==>
      var i := Dispatch(routes, req.verb, req.url.path).value;
      var leaf := Leaf(routes[i]);
      && (forall j :: 0 <= j < |routes| && j != i ==> r.routes[j] == routes[j])
      && r.routes[i] == Run(routes[i], req, sink).after
      && r.reply.status == leaf.base.code
      && r.reply.body == (if leaf.Mem? then leaf.body else [])
      && r.sink == AssertAll(leaf.base.assertions, req, sink)
  {
    match Dispatch(routes, req.verb, req.url.path)
    case None => Served(routes, Reply(StatusNotFound, NotFoundBody()), sink)
    case Some(i) =>
      var s := Run(routes[i], req, sink);
      var written := match s.resp.body case Some(bytes) => bytes case None => [];
      Served(routes[i := s.after], Reply(s.resp.status, written), s.sink)
  }

  /**
   * Serving a request never changes which fixture a later request selects:
   * only a sequence fixture's cursor moves, and routes and methods stay.
   */
  lemma ServeKeepsRouting(routes: seq<Fixture>, req: Request, sink: Sink, verb: string, path: string)
    requires AllWellFormed(routes)
    ensures Dispatch(Serve(routes, req, sink).routes, verb, path) == Dispatch(routes, verb, path)
  {
    DispatchReadsOnlyDescriptors(Serve(routes, req, sink).routes, routes, verb, path);
  }

  /** An unmatched request is answered 404 and leaves the sink untouched. */
  lemma UnmatchedIsNotAFailure(routes: seq<Fixture>, req: Request, sink: Sink)
    requires AllWellFormed(routes)
    requires forall j :: 0 <= j < |routes| ==> !Matches(routes[j], req.verb, req.url.path)
    ensures Serve(routes, req, sink).reply.status == StatusNotFound
    ensures Serve(routes, req, sink).sink == sink
  {
  }

  /**
   * A failing assertion marks the test failed but does not change the
   * reply: the configured status and body are still written.
   */
  lemma FailuresDoNotAlterReply(routes: seq<Fixture>, req1: Request, req2: Request, sink: Sink)
    requires AllWellFormed(routes)
    requires req1.verb == req2.verb && req1.url.path == req2.url.path
    ensures Serve(routes, req1, sink).reply == Serve(routes, req2, sink).reply
    ensures Serve(routes, req1, sink).routes == Serve(routes, req2, sink).routes
  {
    var d := Dispatch(routes, req1.verb, req1.url.path);
    if d.Some? {
      RunIsLogicless(routes[d.value], req1, req2, sink, sink);
    }
  }
}
