/**
 * Concrete scenarios from the package's own tests and documentation,
 * stated against the model.
 */
module Scenarios {
  import opened Wrappers
  import opened Text
  import opened Requests
  import opened Assertions
  import opened Fixtures
  import opened Server

  /** A request with no headers whose URL text is `host` followed by the path. */
  function Req(verb: string, host: string, path: string, body: seq<byte>): Request {
    Request(verb, Url(path, host + path), map[], body, |body|)
  }

  const NoFailures := Sink([], false)

  /** A needle whose first element never appears in `s` occurs nowhere in it. */
  lemma AbsentFirstElement<T>(s: seq<T>, sub: seq<T>)
    requires 0 < |sub|
    requires forall i :: 0 <= i < |s| ==> s[i] != sub[0]
    ensures !Contains(s, sub)
  {
    assert forall i :: OccursAt(s, sub, i) ==> s[i..i + |sub|][0] == s[i];
  }

  /** GET /path against GetOK("/path", "hello world") answers 200 with that body. */
  lemma GetOKScenario()
    ensures
      var routes := [GetOK("/path", AsciiBytes("hello world"), [])];
      Serve(routes, Req("GET", "http://127.0.0.1", "/path", []), NoFailures).reply
        == Reply(StatusOK, AsciiBytes("hello world"))
  {
    var routes := [GetOK("/path", AsciiBytes("hello world"), [])];
    assert Matches(routes[0], "GET", "/path");
  }

  /** DELETE /other/path against Bytes(..., 201, ...) answers 201 with the bytes. */
  lemma BytesStatusScenario()
    ensures
      var routes := [Bytes("/other/path", "DELETE", 201, AsciiBytes("moar bytes"), [])];
      Serve(routes, Req("DELETE", "http://127.0.0.1", "/other/path", []), NoFailures).reply
        == Reply(201, AsciiBytes("moar bytes"))
  {
    var routes := [Bytes("/other/path", "DELETE", 201, AsciiBytes("moar bytes"), [])];
    assert Matches(routes[0], "DELETE", "/other/path");
  }

  /**
   * A fixture at GET /api/example answers a GET there with its status and
   * body; a GET to /other finds no fixture and gets a 404.
   */
  lemma ExampleApiScenario()
    ensures
      var body := AsciiBytes("{\"response\":\"hello fixture\"}");
      var routes := [GetOK("api/example", body, [])];
      && Serve(routes, Req("GET", "http://127.0.0.1", "/api/example", []), NoFailures).reply
           == Reply(StatusOK, body)
      && Serve(routes, Req("GET", "http://127.0.0.1", "/other", []), NoFailures).reply.status
           == StatusNotFound
  {
    var body := AsciiBytes("{\"response\":\"hello fixture\"}");
    var routes := [GetOK("api/example", body, [])];
    assert routes[0].base.route == "/api/example";
    assert Matches(routes[0], "GET", "/api/example");
    assert !Matches(routes[0], "GET", "/other") by {
      assert "/other"[1] != "/api/example"[1];
    }
  }

  /**
   * A fixture at /path answers /path and /path/subpath but not /other; a
   * GET-only fixture ignores a POST, a wildcard one does not.
   */
  lemma PrefixAndMethodScenario()
    ensures Matches(GetOK("/path", [], []), "GET", "/path")
    ensures Matches(GetOK("/path", [], []), "GET", "/path/subpath")
    ensures !Matches(GetOK("/path", [], []), "GET", "/other")
    ensures !Matches(GetOK("/path", [], []), "POST", "/path")
    ensures Matches(OK("/path", [], []), "POST", "/path")
    ensures Matches(OK("/path", [], []), "DELETE", "/path/subpath")
  {
    assert "/path" <= "/path/subpath";
    assert "/other"[1] != "/path"[1];
  }

  /** A NotFound fixture answers 404 with no body. */
  lemma NotFoundFixtureScenario()
    ensures
      var routes := [NotFound("/gone", "*", [])];
      Serve(routes, Req("PUT", "http://127.0.0.1", "/gone", []), NoFailures).reply
        == Reply(StatusNotFound, [])
  {
    var routes := [NotFound("/gone", "*", [])];
    assert Matches(routes[0], "PUT", "/gone");
  }

  /**
   * A fresh sequence over four static fixtures answers nine calls with the
   * first three once each and the fourth six times.
   */
  lemma NineCallsOverFour(f: Fixture, reqs: seq<Request>)
    requires WellFormed(f) && f.Multi? && f.next == 0 && |f.subs| == 4
    requires forall i :: 0 <= i < 4 ==> !f.subs[i].Multi?
    requires |reqs| == 9
    ensures
      var rs := RunSeries(f, reqs, NoFailures).responses;
      && rs[0] == Render(f.subs[0]) && rs[1] == Render(f.subs[1]) && rs[2] == Render(f.subs[2])
      && forall k :: 3 <= k < 9 ==> rs[k] == Render(f.subs[3])
  {
    StaticSeries(f, reqs, NoFailures);
    var rs := RunSeries(f, reqs, NoFailures).responses;
    assert Min(0, 3) == 0 && Min(1, 3) == 1 && Min(2, 3) == 2;
    forall k | 3 <= k < 9 ensures rs[k] == Render(f.subs[3]) {
      assert Min(k, 3) == 3;
    }
  }

  /**
   * A sequence fixture over four bodies answers nine consecutive GETs with
   * body1, body2, body3, body4 and then body4 five more times.
   */
  lemma SequenceScenario()
    ensures
      var subs := [
        GetOK("/path", AsciiBytes("body1"), []), GetOK("/path", AsciiBytes("body2"), []),
        GetOK("/path", AsciiBytes("body3"), []), GetOK("/path", AsciiBytes("body4"), [])];
      var reqs := seq(9, _ => Req("GET", "http://127.0.0.1", "/path", []));
      var rs := RunSeries(Seq("/path", "GET", subs), reqs, NoFailures).responses;
      && rs[0].body == Some(AsciiBytes("body1"))
      && rs[1].body == Some(AsciiBytes("body2"))
      && rs[2].body == Some(AsciiBytes("body3"))
      && forall k :: 3 <= k < 9 ==> rs[k] == Response(StatusOK, Some(AsciiBytes("body4")))
  {
    var subs := [
      GetOK("/path", AsciiBytes("body1"), []), GetOK("/path", AsciiBytes("body2"), []),
      GetOK("/path", AsciiBytes("body3"), []), GetOK("/path", AsciiBytes("body4"), [])];
    var reqs := seq(9, _ => Req("GET", "http://127.0.0.1", "/path", []));
    NineCallsOverFour(Seq("/path", "GET", subs), reqs);
  }

  /** A body containing the needle passes; the fixture still answers as configured. */
  lemma BodyContainsPassScenario()
    ensures
      var f := GetOK("/path", [], [BodyContains(AsciiBytes("quick brown fox"))]);
      var req := Req("GET", "http://localhost:8080", "/path",
        AsciiBytes("the " + "quick brown fox" + " jumped over the"));
      !Run(f, req, NoFailures).sink.failed
  {
    AsciiBytesAppend("the ", "quick brown fox");
    AsciiBytesAppend("the " + "quick brown fox", " jumped over the");
    var body := AsciiBytes("the ") + AsciiBytes("quick brown fox") + AsciiBytes(" jumped over the");
    assert OccursAt(body, AsciiBytes("quick brown fox"), 4);
  }

  /**
   * A body without the needle marks the test failed and logs one line, but
   * the response is still the fixture's status and body.
   */
  lemma BodyContainsFailScenario()
    ensures
      var f := GetOK("/path/another", AsciiBytes("response body"), [BodyContains(AsciiBytes("quick brown fox"))]);
      var req := Req("GET", "http://localhost:8080", "/path/another", AsciiBytes("something else even"));
      var s := Run(f, req, NoFailures);
      && s.sink.failed
      && s.sink.logs == [FailurePrefix + "body did not contain expected bytes"]
      && s.resp == Response(StatusOK, Some(AsciiBytes("response body")))
  {
    var text := "something else even";
    assert forall i :: 0 <= i < |text| ==> text[i] != 'q';
    AbsentFirstElement(AsciiBytes(text), AsciiBytes("quick brown fox"));
  }

  /** An empty body contains no "o", so the assertion fails. */
  lemma EmptyBodyFailsScenario()
    ensures
      var f := GetOK("/path", [], [BodyContains(AsciiBytes("o"))]);
      Run(f, Req("GET", "http://localhost:8080", "/path", []), NoFailures).sink.failed
  {
  }

  /** Control bytes are found like any others. */
  lemma ControlBytesScenario()
    ensures
      var f := GetOK("/path", [], [BodyContains(AsciiBytes("\n\n\r"))]);
      var req := Req("GET", "http://localhost:8080", "/path",
        AsciiBytes("some text" + "\n\n\r" + "other text here"));
      !Run(f, req, NoFailures).sink.failed
  {
    AsciiBytesAppend("some text", "\n\n\r");
    AsciiBytesAppend("some text" + "\n\n\r", "other text here");
    var body := AsciiBytes("some text") + AsciiBytes("\n\n\r") + AsciiBytes("other text here");
    assert OccursAt(body, AsciiBytes("\n\n\r"), 9);
  }

  /** "Content-Type" is already a canonical header key. */
  lemma ContentTypeIsCanonical()
    ensures CanonicalKey("Content-Type") == "Content-Type"
  {
    var k := "Content-Type";
    forall i | 0 <= i < |k| ensures k[i] == RecasedChar(k, true, i) {
      assert i in {0, 1, 2, 3, 4, 5, 6, 7, 8, 9, 10, 11};
    }
    assert InRecasedForm(k, true);
    RecaseFixesRecasedForm(k, true);
  }

  /**
   * A Content-Type header added under its canonical name passes a check
   * for it, even when the expected value differs in letter case, so a
   * fixture with that one assertion leaves the test passing.
   */
  lemma HeaderPresentScenario()
    ensures
      var req := Req("GET", "http://localhost:7070", "/path", []).(header := map["Content-Type" := ["application/json"]]);
      Check(HeaderMatches("Content-Type", "Application/JSON"), req).Pass?
  {
    var req := Req("GET", "http://localhost:7070", "/path", []).(header := map["Content-Type" := ["application/json"]]);
    ContentTypeIsCanonical();
    assert Values(req.header, "Content-Type") == ["application/json"];
    JsonFoldsToItself();
  }

  /**
   * The same request to a fixture carrying that one header assertion
   * leaves the test passing.
   */
  lemma HeaderPresentRunScenario(req: Request)
    requires req == Req("GET", "http://localhost:7070", "/path", []).(header := map["Content-Type" := ["application/json"]])
    ensures !Run(GetOK("/path", [], [HeaderMatches("Content-Type", "Application/JSON")]), req, NoFailures).sink.failed
  {
    HeaderPresentScenario();
    SinglePassingAssertion(GetOK("/path", [], [HeaderMatches("Content-Type", "Application/JSON")]), req);
  }

  /** A static fixture whose one assertion passes leaves a clean sink clean. */
  lemma SinglePassingAssertion(f: Fixture, req: Request)
    requires !f.Multi? && |f.base.assertions| == 1 && Check(f.base.assertions[0], req).Pass?
    ensures !Run(f, req, NoFailures).sink.failed
  {
  }

  /** With no Content-Type header the check fails and the test is marked failed. */
  lemma HeaderAbsentScenario()
    ensures
      var f := GetOK("/path", [], [HeaderMatches("Content-Type", "application/json")]);
      Run(f, Req("GET", "http://localhost:7070", "/path", []), NoFailures).sink.failed
  {
    var a := HeaderMatches("Content-Type", "application/json");
    assert [a][0] == a;
  }

  /** The two spellings of the JSON media type are equal up to case. */
  lemma JsonFoldsToItself()
    ensures AnyValueMatches(["application/json"], "Application/JSON")
  {
    var a, b := "application/json", "Application/JSON";
    forall i | 0 <= i < |a| ensures Lower(a[i]) == Lower(b[i]) {
      assert i in {0, 1, 2, 3, 4, 5, 6, 7, 8, 9, 10, 11, 12, 13, 14, 15};
    }
    assert FoldEqual(a, b);
    assert ["application/json"][0] == a;
  }
}
