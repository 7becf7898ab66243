/**
 * Request assertions (AssertURLContains, AssertHeaderMatches,
 * AssertBodyContains / AssertBodyContainsBytes) and assertAll, which runs
 * them all and reports failures to the test-result sink.
 */
module Assertions {
  import opened Wrappers
  import opened Text
  import opened Requests

  /** One request assertion, as the option that registered it describes it. */
  datatype Assertion =
    | UrlContains(substr: string)
    | HeaderMatches(key: string, value: string)
    | BodyContains(needle: seq<byte>)

  /**
   * The test-result sink (testing.T, as far as the fixtures use it): the
   * lines logged so far and whether the test has been marked failed.
   */
  datatype Sink = Sink(logs: seq<string>, failed: bool)

  /** The prefix assertAll puts before every failure it logs. */
  const FailurePrefix := "request failed assertion: "

  /** Some value stored under the key equals the expected value up to ASCII case. */
  ghost predicate HeaderPresent(h: Header, key: string, value: string) {
    exists i :: 0 <= i < |Values(h, key)| && FoldEqual(Values(h, key)[i], value)
  }

  /**
   * The Go loop over Header.Values(key): the first value equal to the
   * expected one up to case ends the search with a match.
   */
  function AnyValueMatches(vals: seq<string>, value: string): (r: bool)
    ensures r <==> exists i :: 0 <= i < |vals| && FoldEqual(vals[i], value)
    decreases |vals|
  {
    if |vals| == 0 then false
    else if EqualFold(vals[0], value) then true
    else
      var rest := AnyValueMatches(vals[1..], value);
      assert forall i :: 0 < i < |vals| ==> vals[1..][i - 1] == vals[i];
      rest
  }

  /** Runs one assertion against a request. */
  function Check(a: Assertion, req: Request): (o: Outcome)
    ensures a.UrlContains? ==> (o.Pass? <==> exists i :: OccursAt(req.url.text, a.substr, i))
    ensures a.HeaderMatches? ==> (o.Pass? <==> HeaderPresent(req.header, a.key, a.value))
    ensures a.BodyContains? ==> (o.Pass? <==> exists i :: OccursAt(req.body, a.needle, i))
  {
    match a
    case UrlContains(substr) =>
      if Contains(req.url.text, substr) then Pass
      else Fail("url " + req.url.text + " did not contain " + substr)
    case HeaderMatches(key, value) =>
      if AnyValueMatches(Values(req.header, key), value) then Pass
      else Fail("could not find headers matching " + key + ": " + value)
    case BodyContains(needle) =>
      if Contains(req.body, needle) then Pass
      else Fail("body did not contain expected bytes")
  }

  /** The lines assertAll logs: one per failing assertion, in registration order. */
  function FailureLog(asserts: seq<Assertion>, req: Request): (log: seq<string>)
    ensures |log| <= |asserts|
    ensures forall k :: 0 <= k < |log| ==> FailurePrefix <= log[k]
    decreases |asserts|
  {
    if |asserts| == 0 then []
    else
      var head := match Check(asserts[0], req)
        case Pass => []
        case Fail(msg) => [FailurePrefix + msg];
      head + FailureLog(asserts[1..], req)
  }

  /** Some assertion in the list fails on this request. */
  ghost predicate AnyFails(asserts: seq<Assertion>, req: Request) {
    exists i :: 0 <= i < |asserts| && Check(asserts[i], req).Fail?
  }

  /** The failure log is empty exactly when every assertion passes. */
  lemma {:induction false} FailureLogEmpty(asserts: seq<Assertion>, req: Request)
    ensures |FailureLog(asserts, req)| == 0 <==> !AnyFails(asserts, req)
    decreases |asserts|
  {
    if |asserts| > 0 {
      FailureLogEmpty(asserts[1..], req);
      assert forall i :: 0 < i < |asserts| ==> asserts[1..][i - 1] == asserts[i];
      if Check(asserts[0], req).Pass? && AnyFails(asserts, req) {
        var i :| 0 <= i < |asserts| && Check(asserts[i], req).Fail?;
        assert asserts[1..][i - 1] == asserts[i];
      }
    }
  }

  /**
   * Running two lists of assertions one after the other logs the failures
   * of the first and then those of the second: the log keeps registration
   * order and no assertion is skipped.
   */
  lemma {:induction false} FailureLogAppend(a: seq<Assertion>, b: seq<Assertion>, req: Request)
    ensures FailureLog(a + b, req) == FailureLog(a, req) + FailureLog(b, req)
    decreases |a|
  {
    if |a| > 0 {
      var head := match Check(a[0], req)
        case Pass => []
        case Fail(msg) => [FailurePrefix + msg];
      assert (a + b)[0] == a[0];
      assert (a + b)[1..] == a[1..] + b;
      FailureLogAppend(a[1..], b, req);
      calc {
        FailureLog(a + b, req);
        head + FailureLog(a[1..] + b, req);
        head + (FailureLog(a[1..], req) + FailureLog(b, req));
        (head + FailureLog(a[1..], req)) + FailureLog(b, req);
        FailureLog(a, req) + FailureLog(b, req);
      }
    } else {
      assert a + b == b;
    }
  }

  /** A single assertion logs one prefixed line when it fails and nothing when it passes. */
  lemma FailureLogSingle(a: Assertion, req: Request)
    ensures Check(a, req).Pass? ==> FailureLog([a], req) == []
    ensures Check(a, req).Fail? ==> FailureLog([a], req) == [FailurePrefix + Check(a, req).message]
  {
  }

  /**
   * assertAll: every assertion runs, each failure is logged, and the test is
   * marked failed when at least one failed. A test already marked failed
   * stays failed.
   */
  function AssertAll(asserts: seq<Assertion>, req: Request, sink: Sink): (s: Sink)
    ensures s.logs == sink.logs + FailureLog(asserts, req)
    ensures s.failed <==> sink.failed || AnyFails(asserts, req)
  {
    FailureLogEmpty(asserts, req);
    var log := FailureLog(asserts, req);
    Sink(sink.logs + log, sink.failed || |log| > 0)
  }

  /**
   * assertAll as the Go loop runs it: a local flag remembers whether any
   * assertion failed, and the test is marked failed once, after the loop.
   */
  method RunAssertions(asserts: seq<Assertion>, req: Request, sink: Sink) returns (s: Sink)
    ensures s.logs == sink.logs + FailureLog(asserts, req)
    ensures s.failed <==> sink.failed || AnyFails(asserts, req)
  {
    var logs := sink.logs;
    var failedAssert := false;
    var k := 0;
    while k < |asserts|
      invariant 0 <= k <= |asserts|
      invariant logs == sink.logs + FailureLog(asserts[..k], req)
      invariant failedAssert <==> AnyFails(asserts[..k], req)
    {
      FailureLogAppend(asserts[..k], [asserts[k]], req);
      assert asserts[..k + 1] == asserts[..k] + [asserts[k]];
      var o := Check(asserts[k], req);
      if o.Fail? {
        logs := logs + [FailurePrefix + o.message];
        failedAssert := true;
      }
      assert AnyFails(asserts[..k + 1], req) <==> AnyFails(asserts[..k], req) || o.Fail? by {
        assert forall i :: 0 <= i < k ==> asserts[..k + 1][i] == asserts[..k][i];
        assert asserts[..k + 1][k] == asserts[k];
      }
      k := k + 1;
    }
    assert asserts[..k] == asserts;
    s := Sink(logs, sink.failed || failedAssert);
  }
}
